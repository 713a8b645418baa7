/**
 * Evaluation of a syntax tree: `exprEvaluate` in parser/parser_lessoop.cpp
 * and the `evaluate` methods of the node classes in parser/parser_oop.cpp
 * and parser.cpp. The three agree on every node except `>>`.
 */
module Evaluation {
  import opened Values
  import opened Errors
  import opened Syntax

  /**
   * What the tree's leaves point into: the host callbacks (by identity) and
   * the byte memory that direct variables address.
   */
  datatype Host = Host(
    read: CallbackId -> Value,
    call0: CallbackId -> Value,
    call1: (CallbackId, Value) -> Value,
    call2: (CallbackId, Value, Value) -> Value,
    call3: (CallbackId, Value, Value, Value) -> Value,
    memory: Address -> U8)

  /**
   * The evaluation context (`ExprEvaluator` / `Expr::Evaluator`): a program
   * counter and the three memory readers, whose C++ return types are
   * `uint8_t`, `uint16_t` and `uint32_t`.
   */
  datatype Evaluator = Evaluator(pc: Value, memByte: Value -> U8, memWord: Value -> U16, memDword: Value -> U32)

  /**
   * How an evaluation ends: with a value, with an `ExprError` thrown, or in
   * behaviour C++ leaves undefined (a shift count outside 0..31, a left
   * shift of a negative value or one whose exact product needs more than
   * 32 bits, `INT_MIN / -1`, `INT_MIN % -1`).
   */
  datatype Outcome = Returned(value: Value) | Raised(error: Error) | Undefined
  {
    predicate IsFailure() {
      !Returned?
    }

    function PropagateFailure(): Outcome
      requires !Returned?
    {
      this
    }

    function Extract(): Value
      requires Returned?
    {
      value
    }
  }

  /** A little-endian `uint16_t` stored at `p`. */
  function Load16(m: Address -> U8, p: Address): U16
  {
    m(p) + 0x100 * m(p + 1)
  }

  /** A little-endian `uint32_t` stored at `p`. */
  function Load32(m: Address -> U8, p: Address): U32
  {
    Load16(m, p) + 0x1_0000 * Load16(m, p + 2)
  }

  /** A 24-bit variable: the word at its address plus the next byte times 2^16. */
  function U24(word: U16, high: U8): Value
  {
    word + 0x1_0000 * high
  }

  /** The source assembles the 24-bit value as `word | (byte << 16)`, which is the same sum. */
  lemma {:induction false} U24IsOr(word: U16, high: U8)
    ensures U24(word, high) == BitwiseValue(Or, word, ShiftLeft(high, 16))
  {
    Pow2Values();
    DoubledIsProduct(high, 16);
    OrDisjoint(word, high, 16, 32);
  }

  /**
   * A prefix operator applied to its evaluated operand: `-` negates modulo
   * 2^32 (so `-INT_MIN` is `INT_MIN`), `!` is 1 exactly for 0, and `~`
   * flips every bit.
   */
  function ApplyUnary(op: UnaryOp, x: Value): (r: Value)
    ensures op == Negate ==> (r + x) % Modulus == 0 && (x != MinValue ==> r == -x)
    ensures op == LogicNot ==> (r == 0 || r == 1) && (r == 1 <==> x == 0)
    ensures op == BitNot ==> ToU32(r) == Modulus - 1 - ToU32(x)
  {
    match op
    case Negate => Wrap(-(x as int))
    case LogicNot => FromBool(x == 0)
    case BitNot => Complement(x)
  }

  /**
   * A binary operator applied to two evaluated operands. The copies differ
   * only in `>>`: the tagged-union copy shifts a signed `int32_t`, the other
   * two shift it as a `uint32_t`.
   */
  function Arithmetic(v: Variant, op: BinaryOp, x: Value, y: Value): (r: Outcome)
    ensures v != LessOop || op != Shr ==> r == Operate(op, x, y)
    ensures r.Returned? == Operate(op, x, y).Returned? && r.Raised? == Operate(op, x, y).Raised?
  {
    if op == Shr && v == LessOop then
      if !ValidShiftCount(y) then Undefined else Returned(ShiftRightArithmetic(x, y))
    else Operate(op, x, y)
  }

  /**
   * C++ before C++20 defines `x << y` only for a count of 0 to 31, a
   * non-negative `x`, and an exact product that fits 32 unsigned bits.
   */
  predicate LeftShiftDefined(x: Value, y: Value)
  {
    ValidShiftCount(y) && x >= 0 && x * Pow2(y) < Modulus
  }

  /**
   * A binary operator as the class-per-node copies apply it. Only `/` and
   * `%` by zero raise an error; only shifts and `INT_MIN / -1` are
   * undefined; truth-valued operators yield 0 or 1; `/` and `%` truncate
   * toward zero.
   */
  function Operate(op: BinaryOp, x: Value, y: Value): (r: Outcome)
    ensures r.Raised? <==> (op == Divide || op == Remainder) && y == 0
    ensures r.Raised? ==> r.error == DivisionByZero
    ensures r.Undefined? ==> op == Shl || op == Shr || ((op == Divide || op == Remainder) && DivisionOverflows(x, y))
    ensures op == Shr ==> (r.Undefined? <==> !ValidShiftCount(y))
    ensures IsBooleanOp(op) ==> r.Returned? && (r.value == 0 || r.value == 1)
    ensures op == Divide && r.Returned? ==> y != 0 && r.value == TruncDiv(x, y)
    ensures op == Remainder && r.Returned? ==> y != 0 && r.value == TruncRem(x, y)
  {
    if op == Divide || op == Remainder then
      if y == 0 then Raised(DivisionByZero)
      else if DivisionOverflows(x, y) then Undefined
      else if op == Divide then Returned(Quotient(x, y))
      else Returned(Values.Remainder(x, y))
    else if op == Shl then
      if !LeftShiftDefined(x, y) then Undefined else Returned(ShiftLeft(x, y))
    else if op == Shr then
      if !ValidShiftCount(y) then Undefined else Returned(ShiftRightLogical(x, y))
    else Returned(Combine(op, x, y))
  }

  /** The operators defined on every pair of operands; truth-valued ones yield 0 or 1. */
  function Combine(op: BinaryOp, x: Value, y: Value): (r: Value)
    requires op != Divide && op != Remainder && op != Shl && op != Shr
    ensures IsBooleanOp(op) ==> r == 0 || r == 1
  {
    match op
    case LogicOr => FromBool(x != 0 || y != 0)
    case LogicAnd => FromBool(x != 0 && y != 0)
    case BitOr => BitwiseValue(Or, x, y)
    case BitAnd => BitwiseValue(And, x, y)
    case BitXor => BitwiseValue(Xor, x, y)
    case Equal => FromBool(x == y)
    case NotEqual => FromBool(x != y)
    case Less => FromBool(x < y)
    case LessEqual => FromBool(x <= y)
    case Greater => FromBool(x > y)
    case GreaterEqual => FromBool(x >= y)
    case Plus => Wrap(x + y)
    case Minus => Wrap(x - y)
    case Multiply => Wrap(x * y)
  }

  /**
   * The value of `e`. Operands are evaluated left to right, except that
   * `/` and `%` evaluate the divisor first; `||`, `&&` and `?:` evaluate
   * only the operands they need.
   */
  function Eval(v: Variant, e: Expr, h: Host, ev: Evaluator): (r: Outcome)
    ensures r.Raised? ==> r.error == DivisionByZero
    decreases e, 1
  {
    match e
    case Number(n) => Returned(n)
    case CallbackValue(f) => Returned(h.read(f))
    case ByteValue(p) => Returned(h.memory(p))
    case WordValue(p) => Returned(Load16(h.memory, p))
    case U24Value(p) => Returned(U24(Load16(h.memory, p), h.memory(p + 2)))
    case DwordValue(p) => Returned(FromU32(Load32(h.memory, p)))
    case Func0(f) => Returned(h.call0(f))
    case Func1(f, a) =>
      var x :- Eval(v, a, h, ev);
      Returned(h.call1(f, x))
    case Func2(f, a, b) =>
      var x :- Eval(v, a, h, ev);
      var y :- Eval(v, b, h, ev);
      Returned(h.call2(f, x, y))
    case Func3(f, a, b, c) =>
      var x :- Eval(v, a, h, ev);
      var y :- Eval(v, b, h, ev);
      var z :- Eval(v, c, h, ev);
      Returned(h.call3(f, x, y, z))
    case MemByte(a) =>
      var x :- Eval(v, a, h, ev);
      Returned(ev.memByte(x))
    case MemWord(a) =>
      var x :- Eval(v, a, h, ev);
      Returned(ev.memWord(x))
    case MemDword(a) =>
      var x :- Eval(v, a, h, ev);
      Returned(FromU32(ev.memDword(x)))
    case Dollar => Returned(ev.pc)
    case Cond(c, t, f) =>
      var x :- Eval(v, c, h, ev);
      if x != 0 then Eval(v, t, h, ev) else Eval(v, f, h, ev)
    case Unary(op, a) =>
      var x :- Eval(v, a, h, ev);
      Returned(ApplyUnary(op, x))
    case Binary(op, l, r) => EvalBinary(v, op, l, r, h, ev)
  }

  /** The value of `l op r`, split out of `Eval` so that one unfolding of `Eval` stops at the binary node. */
  function EvalBinary(v: Variant, op: BinaryOp, l: Expr, r: Expr, h: Host, ev: Evaluator): (o: Outcome)
    ensures o.Raised? ==> o.error == DivisionByZero
    decreases Binary(op, l, r), 0
  {
    if op == LogicOr || op == LogicAnd then
      var x :- Eval(v, l, h, ev);
      if (x != 0) == (op == LogicOr) then Returned(FromBool(op == LogicOr))
      else
        var y :- Eval(v, r, h, ev);
        Arithmetic(v, op, x, y)
    else if op == Divide || op == Remainder then
      var d :- Eval(v, r, h, ev);
      if d == 0 then Raised(DivisionByZero)
      else
        var n :- Eval(v, l, h, ev);
        Arithmetic(v, op, n, d)
    else
      var x :- Eval(v, l, h, ev);
      var y :- Eval(v, r, h, ev);
      Arithmetic(v, op, x, y)
  }

  /** The operators whose result is a truth value. */
  predicate IsBooleanOp(op: BinaryOp)
  {
    op == LogicOr || op == LogicAnd || op == Equal || op == NotEqual
    || op == Less || op == LessEqual || op == Greater || op == GreaterEqual
  }

  /** Comparisons, equality, `!`, `&&` and `||` yield only 0 or 1. */
  lemma {:induction false} BooleanResults(v: Variant, e: Expr, h: Host, ev: Evaluator)
    requires (e.Binary? && IsBooleanOp(e.bop)) || (e.Unary? && e.uop == LogicNot)
    ensures Eval(v, e, h, ev).Returned? ==> Eval(v, e, h, ev).value == 0 || Eval(v, e, h, ev).value == 1
  {
  }

  /** `l || r` is 1 as soon as `l` is non-zero, and `l && r` is 0 as soon as `l` is zero, whatever `r` would do. */
  lemma {:induction false} ShortCircuit(v: Variant, l: Expr, r: Expr, h: Host, ev: Evaluator)
    requires Eval(v, l, h, ev).Returned?
    ensures Eval(v, l, h, ev).value != 0 ==> EvalBinary(v, LogicOr, l, r, h, ev) == Returned(1)
    ensures Eval(v, l, h, ev).value == 0 ==> EvalBinary(v, LogicAnd, l, r, h, ev) == Returned(0)
  {
  }

  /** Where both operands evaluate, short-circuiting gives the eager result. */
  lemma {:induction false} ShortCircuitMatchesEager(v: Variant, op: BinaryOp, l: Expr, r: Expr, h: Host, ev: Evaluator)
    requires op == LogicOr || op == LogicAnd
    requires Eval(v, l, h, ev).Returned? && Eval(v, r, h, ev).Returned?
    ensures EvalBinary(v, op, l, r, h, ev) == Arithmetic(v, op, Eval(v, l, h, ev).value, Eval(v, r, h, ev).value)
  {
  }

  /** `c ? t : f` is the value of exactly one branch, the other is never evaluated. */
  lemma {:induction false} CondSelectsOneBranch(v: Variant, c: Expr, t: Expr, f: Expr, h: Host, ev: Evaluator)
    requires Eval(v, c, h, ev).Returned?
    ensures Eval(v, c, h, ev).value != 0 ==> forall g :: Eval(v, Cond(c, t, g), h, ev) == Eval(v, t, h, ev)
    ensures Eval(v, c, h, ev).value == 0 ==> forall g :: Eval(v, Cond(c, g, f), h, ev) == Eval(v, f, h, ev)
  {
  }

  /**
   * `/` and `%` look at the divisor first: a failing or zero divisor decides
   * the outcome before the dividend is evaluated.
   */
  lemma {:induction false} DivisorFirst(v: Variant, op: BinaryOp, l: Expr, r: Expr, h: Host, ev: Evaluator)
    requires op == Divide || op == Remainder
    ensures !Eval(v, r, h, ev).Returned? ==> EvalBinary(v, op, l, r, h, ev) == Eval(v, r, h, ev)
    ensures Eval(v, r, h, ev) == Returned(0) ==> EvalBinary(v, op, l, r, h, ev) == Raised(DivisionByZero)
  {
  }

  /** `/` truncates toward zero and `%` is the matching remainder, with the sign of the dividend. */
  lemma {:induction false} DivisionTruncates(v: Variant, l: Expr, r: Expr, h: Host, ev: Evaluator)
    requires Eval(v, l, h, ev).Returned? && Eval(v, r, h, ev).Returned?
    requires Eval(v, r, h, ev).value != 0
    requires !DivisionOverflows(Eval(v, l, h, ev).value, Eval(v, r, h, ev).value)
    ensures EvalBinary(v, Divide, l, r, h, ev).Returned? && EvalBinary(v, Remainder, l, r, h, ev).Returned?
    ensures
      var n, d := Eval(v, l, h, ev).value, Eval(v, r, h, ev).value;
      var q, m := EvalBinary(v, Divide, l, r, h, ev).value, EvalBinary(v, Remainder, l, r, h, ev).value;
      q * d + m == n && Abs(m) < Abs(d) && (m == 0 || (m < 0 <==> n < 0)) && Abs(q) == Abs(n) / Abs(d)
  {
    var n, d := Eval(v, l, h, ev).value, Eval(v, r, h, ev).value;
    TruncDivRem(n, d);
  }

  /** `INT_MIN / -1` and `INT_MIN % -1` are the only divisions with a non-zero divisor C++ leaves undefined. */
  lemma {:induction false} DivisionOverflowIsUndefined(v: Variant, op: BinaryOp, l: Expr, r: Expr, h: Host, ev: Evaluator)
    requires op == Divide || op == Remainder
    requires Eval(v, l, h, ev) == Returned(MinValue) && Eval(v, r, h, ev) == Returned(-1)
    ensures EvalBinary(v, op, l, r, h, ev) == Undefined
  {
  }

  /**
   * `x << y` is defined exactly for a count in 0..31, a non-negative `x` and
   * a product that fits 32 unsigned bits; its bit pattern is then that product.
   */
  lemma {:induction false} LeftShiftOutcomes(v: Variant, x: Value, y: Value)
    ensures Arithmetic(v, Shl, x, y).Undefined? <==> !ValidShiftCount(y) || x < 0 || x * Pow2(y) >= Modulus
    ensures Arithmetic(v, Shl, x, y).Returned? ==> ToU32(Arithmetic(v, Shl, x, y).value) == x * Pow2(y)
  {
    if LeftShiftDefined(x, y) {
      ShiftLeftPattern(x, y);
    }
  }

  /** A defined left shift keeps the exact product as its 32-bit pattern. */
  lemma {:induction false} ShiftLeftPattern(x: Value, y: Value)
    requires LeftShiftDefined(x, y)
    ensures ToU32(ShiftLeft(x, y)) == x * Pow2(y)
  {
  }

  /** A memory-read node zero-extends the reader's `uint8_t`, `uint16_t` or `uint32_t` result. */
  lemma {:induction false} MemoryReadsZeroExtend(v: Variant, a: Expr, h: Host, ev: Evaluator)
    requires Eval(v, a, h, ev).Returned?
    ensures
      var x := Eval(v, a, h, ev).value;
      && Eval(v, MemByte(a), h, ev) == Returned(ev.memByte(x))
      && Eval(v, MemWord(a), h, ev) == Returned(ev.memWord(x))
      && Eval(v, MemDword(a), h, ev).Returned?
      && ToU32(Eval(v, MemDword(a), h, ev).value) == ev.memDword(x)
  {
  }

  /** Direct variables read 1, 2, 3 or 4 bytes of host memory, least significant byte first. */
  lemma {:induction false} DirectVariablesLittleEndian(v: Variant, p: Address, h: Host, ev: Evaluator)
    ensures
      var m := h.memory;
      && Eval(v, ByteValue(p), h, ev) == Returned(m(p))
      && Eval(v, WordValue(p), h, ev) == Returned(m(p) + 0x100 * m(p + 1))
      && Eval(v, U24Value(p), h, ev) == Returned(m(p) + 0x100 * m(p + 1) + 0x1_0000 * m(p + 2))
      && Eval(v, DwordValue(p), h, ev).Returned?
      && ToU32(Eval(v, DwordValue(p), h, ev).value)
         == m(p) + 0x100 * m(p + 1) + 0x1_0000 * m(p + 2) + 0x100_0000 * m(p + 3)
  {
    Load32Bytes(h.memory, p);
  }

  /** A stored `uint32_t` read back through `int` keeps its four bytes, least significant first. */
  lemma {:induction false} Load32Bytes(m: Address -> U8, p: Address)
    ensures ToU32(FromU32(Load32(m, p))) == m(p) + 0x100 * m(p + 1) + 0x1_0000 * m(p + 2) + 0x100_0000 * m(p + 3)
  {
  }

  /** `--a` is `a`: negation wraps, and wrapping twice cancels even for `INT_MIN`. */
  lemma {:induction false} DoubleNegate(v: Variant, a: Expr, h: Host, ev: Evaluator)
    requires Eval(v, a, h, ev).Returned?
    ensures Eval(v, Unary(Negate, Unary(Negate, a)), h, ev) == Eval(v, a, h, ev)
  {
    PrefixTwice(v, Negate, a, h, ev);
    NegateTwice(Eval(v, a, h, ev).value);
  }

  /** `~~a` is `a`. */
  lemma {:induction false} DoubleComplement(v: Variant, a: Expr, h: Host, ev: Evaluator)
    requires Eval(v, a, h, ev).Returned?
    ensures Eval(v, Unary(BitNot, Unary(BitNot, a)), h, ev) == Eval(v, a, h, ev)
  {
    PrefixTwice(v, BitNot, a, h, ev);
  }

  /** `!!a` normalises `a` to a truth value. */
  lemma {:induction false} DoubleLogicNot(v: Variant, a: Expr, h: Host, ev: Evaluator)
    requires Eval(v, a, h, ev).Returned?
    ensures Eval(v, Unary(LogicNot, Unary(LogicNot, a)), h, ev) == Returned(FromBool(Eval(v, a, h, ev).value != 0))
  {
    PrefixTwice(v, LogicNot, a, h, ev);
  }

  lemma {:induction false} PrefixTwice(v: Variant, op: UnaryOp, a: Expr, h: Host, ev: Evaluator)
    requires Eval(v, a, h, ev).Returned?
    ensures Eval(v, Unary(op, Unary(op, a)), h, ev)
         == Returned(ApplyUnary(op, ApplyUnary(op, Eval(v, a, h, ev).value)))
  {
    assert Eval(v, Unary(op, a), h, ev) == Returned(ApplyUnary(op, Eval(v, a, h, ev).value));
  }

  lemma {:induction false} NegateTwice(x: Value)
    ensures ApplyUnary(Negate, ApplyUnary(Negate, x)) == x
  {
    if x == MinValue {
      assert Wrap(-(x as int)) == MinValue;
    }
  }

  /** Whether a `>>` occurs anywhere in the tree. */
  predicate HasShr(e: Expr)
  {
    match e
    case Func1(_, a) => HasShr(a)
    case Func2(_, a, b) => HasShr(a) || HasShr(b)
    case Func3(_, a, b, c) => HasShr(a) || HasShr(b) || HasShr(c)
    case MemByte(a) => HasShr(a)
    case MemWord(a) => HasShr(a)
    case MemDword(a) => HasShr(a)
    case Cond(a, b, c) => HasShr(a) || HasShr(b) || HasShr(c)
    case Unary(_, a) => HasShr(a)
    case Binary(op, a, b) => op == Shr || HasShr(a) || HasShr(b)
    case _ => false
  }

  /**
   * One binary node evaluates alike under two copies when its operands do,
   * unless it is a `>>` and one of the copies is the tagged-union one.
   */
  lemma {:induction false} BinaryStep(v1: Variant, v2: Variant, op: BinaryOp, a: Expr, b: Expr, h: Host, ev: Evaluator)
    requires Eval(v1, a, h, ev) == Eval(v2, a, h, ev) && Eval(v1, b, h, ev) == Eval(v2, b, h, ev)
    requires op == Shr ==> v1 != LessOop && v2 != LessOop
    ensures EvalBinary(v1, op, a, b, h, ev) == EvalBinary(v2, op, a, b, h, ev)
  {
    if op == LogicOr || op == LogicAnd {
      ShortCircuitStep(v1, v2, op, a, b, h, ev);
    } else if op == Divide || op == Remainder {
      DivisionStep(v1, v2, op, a, b, h, ev);
    } else {
      EagerStep(v1, v2, op, a, b, h, ev);
    }
  }

  lemma {:induction false} ShortCircuitStep(v1: Variant, v2: Variant, op: BinaryOp, a: Expr, b: Expr, h: Host, ev: Evaluator)
    requires op == LogicOr || op == LogicAnd
    requires Eval(v1, a, h, ev) == Eval(v2, a, h, ev) && Eval(v1, b, h, ev) == Eval(v2, b, h, ev)
    ensures EvalBinary(v1, op, a, b, h, ev) == EvalBinary(v2, op, a, b, h, ev)
  {
    ArithmeticAgrees(v1, v2, op, Eval(v1, a, h, ev), Eval(v1, b, h, ev));
  }

  lemma {:induction false} DivisionStep(v1: Variant, v2: Variant, op: BinaryOp, a: Expr, b: Expr, h: Host, ev: Evaluator)
    requires op == Divide || op == Remainder
    requires Eval(v1, a, h, ev) == Eval(v2, a, h, ev) && Eval(v1, b, h, ev) == Eval(v2, b, h, ev)
    ensures EvalBinary(v1, op, a, b, h, ev) == EvalBinary(v2, op, a, b, h, ev)
  {
    ArithmeticAgrees(v1, v2, op, Eval(v1, a, h, ev), Eval(v1, b, h, ev));
  }

  lemma {:induction false} EagerStep(v1: Variant, v2: Variant, op: BinaryOp, a: Expr, b: Expr, h: Host, ev: Evaluator)
    requires op != LogicOr && op != LogicAnd && op != Divide && op != Remainder
    requires op == Shr ==> v1 != LessOop && v2 != LessOop
    requires Eval(v1, a, h, ev) == Eval(v2, a, h, ev) && Eval(v1, b, h, ev) == Eval(v2, b, h, ev)
    ensures EvalBinary(v1, op, a, b, h, ev) == EvalBinary(v2, op, a, b, h, ev)
  {
    ArithmeticAgrees(v1, v2, op, Eval(v1, a, h, ev), Eval(v1, b, h, ev));
  }

  lemma {:induction false} ArithmeticAgrees(v1: Variant, v2: Variant, op: BinaryOp, x: Outcome, y: Outcome)
    requires op == Shr ==> v1 != LessOop && v2 != LessOop
    ensures x.Returned? && y.Returned? ==> Arithmetic(v1, op, x.value, y.value) == Arithmetic(v2, op, x.value, y.value)
  {
  }

  /** The class-per-node copy and the single-file original evaluate every tree alike. */
  lemma {:induction false} OopMatchesOriginal(e: Expr, h: Host, ev: Evaluator)
    ensures Eval(Oop, e, h, ev) == Eval(Original, e, h, ev)
    decreases e
  {
    match e
    case Func1(_, a) => OopMatchesOriginal(a, h, ev);
    case Func2(_, a, b) => OopMatchesOriginal(a, h, ev); OopMatchesOriginal(b, h, ev);
    case Func3(_, a, b, c) => OopMatchesOriginal(a, h, ev); OopMatchesOriginal(b, h, ev); OopMatchesOriginal(c, h, ev);
    case MemByte(a) => OopMatchesOriginal(a, h, ev);
    case MemWord(a) => OopMatchesOriginal(a, h, ev);
    case MemDword(a) => OopMatchesOriginal(a, h, ev);
    case Cond(a, b, c) => OopMatchesOriginal(a, h, ev); OopMatchesOriginal(b, h, ev); OopMatchesOriginal(c, h, ev);
    case Unary(_, a) => OopMatchesOriginal(a, h, ev);
    case Binary(op, a, b) =>
      OopMatchesOriginal(a, h, ev);
      OopMatchesOriginal(b, h, ev);
      BinaryStep(Oop, Original, op, a, b, h, ev);
    case _ =>
  }

  /** Without `>>`, the tagged-union copy evaluates every tree like the other two. */
  lemma {:induction false} LessOopMatchesWithoutShr(e: Expr, h: Host, ev: Evaluator)
    requires !HasShr(e)
    ensures Eval(LessOop, e, h, ev) == Eval(Oop, e, h, ev)
    decreases e
  {
    match e
    case Func1(_, a) => LessOopMatchesWithoutShr(a, h, ev);
    case Func2(_, a, b) => LessOopMatchesWithoutShr(a, h, ev); LessOopMatchesWithoutShr(b, h, ev);
    case Func3(_, a, b, c) =>
      LessOopMatchesWithoutShr(a, h, ev); LessOopMatchesWithoutShr(b, h, ev); LessOopMatchesWithoutShr(c, h, ev);
    case MemByte(a) => LessOopMatchesWithoutShr(a, h, ev);
    case MemWord(a) => LessOopMatchesWithoutShr(a, h, ev);
    case MemDword(a) => LessOopMatchesWithoutShr(a, h, ev);
    case Cond(a, b, c) =>
      LessOopMatchesWithoutShr(a, h, ev); LessOopMatchesWithoutShr(b, h, ev); LessOopMatchesWithoutShr(c, h, ev);
    case Unary(_, a) => LessOopMatchesWithoutShr(a, h, ev);
    case Binary(op, a, b) =>
      LessOopMatchesWithoutShr(a, h, ev);
      LessOopMatchesWithoutShr(b, h, ev);
      BinaryStep(LessOop, Oop, op, a, b, h, ev);
    case _ =>
  }

  /**
   * `>>` on a negative left operand: the tagged-union copy shifts the sign
   * in, the other two shift zeros in.
   */
  lemma {:induction false} ShrDivergence(h: Host, ev: Evaluator)
    ensures EvalBinary(LessOop, Shr, Number(-8), Number(1), h, ev) == Returned(-4)
    ensures EvalBinary(Oop, Shr, Number(-8), Number(1), h, ev) == Returned(0x7fff_fffc)
    ensures EvalBinary(Original, Shr, Number(-8), Number(1), h, ev) == Returned(0x7fff_fffc)
  {
  }

  /**
   * On a non-negative left operand the two right shifts agree, so a `>>`
   * node evaluates alike in the tagged-union copy and the others whenever
   * its operands do.
   */
  lemma {:induction false} ShrAgreesOnNonNegative(l: Expr, r: Expr, h: Host, ev: Evaluator)
    requires Eval(LessOop, l, h, ev) == Eval(Oop, l, h, ev) && Eval(LessOop, r, h, ev) == Eval(Oop, r, h, ev)
    requires Eval(Oop, l, h, ev).Returned? ==> Eval(Oop, l, h, ev).value >= 0
    ensures EvalBinary(LessOop, Shr, l, r, h, ev) == EvalBinary(Oop, Shr, l, r, h, ev)
  {
    if Eval(Oop, l, h, ev).Returned? {
      ShiftsAgree(Eval(Oop, l, h, ev).value, Eval(Oop, r, h, ev));
    }
  }

  /** Every `>>` in `e` whose left operand yields a value has a non-negative one. */
  predicate ShiftsNonNegative(e: Expr, h: Host, ev: Evaluator)
  {
    match e
    case Func1(_, a) => ShiftsNonNegative(a, h, ev)
    case Func2(_, a, b) => ShiftsNonNegative(a, h, ev) && ShiftsNonNegative(b, h, ev)
    case Func3(_, a, b, c) => ShiftsNonNegative(a, h, ev) && ShiftsNonNegative(b, h, ev) && ShiftsNonNegative(c, h, ev)
    case MemByte(a) => ShiftsNonNegative(a, h, ev)
    case MemWord(a) => ShiftsNonNegative(a, h, ev)
    case MemDword(a) => ShiftsNonNegative(a, h, ev)
    case Cond(a, b, c) => ShiftsNonNegative(a, h, ev) && ShiftsNonNegative(b, h, ev) && ShiftsNonNegative(c, h, ev)
    case Unary(_, a) => ShiftsNonNegative(a, h, ev)
    case Binary(op, a, b) =>
      && ShiftsNonNegative(a, h, ev) && ShiftsNonNegative(b, h, ev)
      && (op == Shr && Eval(Oop, a, h, ev).Returned? ==> Eval(Oop, a, h, ev).value >= 0)
    case _ => true
  }

  /**
   * The tagged-union copy evaluates like the other two every tree in which
   * no `>>` is applied to a negative value.
   */
  lemma {:induction false} LessOopMatchesOnNonNegativeShifts(e: Expr, h: Host, ev: Evaluator)
    requires ShiftsNonNegative(e, h, ev)
    ensures Eval(LessOop, e, h, ev) == Eval(Oop, e, h, ev)
    decreases e
  {
    match e
    case Func1(_, a) => LessOopMatchesOnNonNegativeShifts(a, h, ev);
    case Func2(_, a, b) => LessOopMatchesOnNonNegativeShifts(a, h, ev); LessOopMatchesOnNonNegativeShifts(b, h, ev);
    case Func3(_, a, b, c) =>
      LessOopMatchesOnNonNegativeShifts(a, h, ev);
      LessOopMatchesOnNonNegativeShifts(b, h, ev);
      LessOopMatchesOnNonNegativeShifts(c, h, ev);
    case MemByte(a) => LessOopMatchesOnNonNegativeShifts(a, h, ev);
    case MemWord(a) => LessOopMatchesOnNonNegativeShifts(a, h, ev);
    case MemDword(a) => LessOopMatchesOnNonNegativeShifts(a, h, ev);
    case Cond(a, b, c) =>
      LessOopMatchesOnNonNegativeShifts(a, h, ev);
      LessOopMatchesOnNonNegativeShifts(b, h, ev);
      LessOopMatchesOnNonNegativeShifts(c, h, ev);
    case Unary(_, a) => LessOopMatchesOnNonNegativeShifts(a, h, ev);
    case Binary(op, a, b) =>
      LessOopMatchesOnNonNegativeShifts(a, h, ev);
      LessOopMatchesOnNonNegativeShifts(b, h, ev);
      if op == Shr {
        ShrAgreesOnNonNegative(a, b, h, ev);
      } else {
        BinaryStep(LessOop, Oop, op, a, b, h, ev);
      }
    case _ =>
  }

  lemma {:induction false} ShiftsAgree(x: Value, y: Outcome)
    requires x >= 0
    ensures y.Returned? ==> Arithmetic(LessOop, Shr, x, y.value) == Arithmetic(Oop, Shr, x, y.value)
  {
    if y.Returned? && ValidShiftCount(y.value) {
      ShiftRightAgreement(x, y.value);
    }
  }
}
