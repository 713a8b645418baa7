/**
 * The syntax tree all three copies build, and the host interfaces the
 * parsers and the evaluator talk to.
 *
 * `parser_lessoop.h` stores a tree as a tagged `Expr` record whose `op`
 * says which of `number`, `valuePtr`, `cb0`..`cb3` and `op1`..`op3` are
 * live; `parser_oop.cpp` and `parser.cpp` use one class per node kind. Both
 * shapes are the same tree, written here as one datatype whose
 * constructors carry exactly the live fields.
 */
module Syntax {
  import opened Values
  import opened Errors

  /** The three copies of the compiler; they differ only where noted. */
  datatype Variant =
    | LessOop   // parser/parser_lessoop.cpp
    | Oop       // parser/parser_oop.cpp
    | Original  // parser.cpp

  /** The identity of a host function pointer (a callback or a `readValue`). */
  type CallbackId = nat

  /** A host data pointer that is not `NULL`. */
  type Address = nat

  /**
   * What `resolveVariable` fills in: a reader callback, or a pointer to
   * host storage of `sizeInBytes` bytes. `None` stands for `NULL`.
   */
  datatype ValuePtr = ValuePtr(readValue: Option<CallbackId>, ptr: Option<Address>, sizeInBytes: nat)

  /**
   * The host resolver: for a name, the callback of each arity it offers
   * (`None` for `NULL`) and the variable it binds, if any.
   */
  datatype Resolver = Resolver(
    func0: string -> Option<CallbackId>,
    func1: string -> Option<CallbackId>,
    func2: string -> Option<CallbackId>,
    func3: string -> Option<CallbackId>,
    variable: string -> Option<ValuePtr>)

  datatype UnaryOp = Negate | LogicNot | BitNot

  datatype BinaryOp =
    | LogicOr | LogicAnd
    | BitOr | BitAnd | BitXor
    | Equal | NotEqual | Less | LessEqual | Greater | GreaterEqual
    | Shl | Shr
    | Plus | Minus | Multiply | Divide | Remainder

  /** The node kinds of `ExprOp`, with the fields each kind uses. */
  datatype Expr =
    | Number(number: Value)
    | CallbackValue(read: CallbackId)
    | ByteValue(at: Address)
    | WordValue(at: Address)
    | U24Value(at: Address)
    | DwordValue(at: Address)
    | Func0(cb: CallbackId)
    | Func1(cb: CallbackId, op1: Expr)
    | Func2(cb: CallbackId, op1: Expr, op2: Expr)
    | Func3(cb: CallbackId, op1: Expr, op2: Expr, op3: Expr)
    | MemByte(address: Expr)
    | MemWord(address: Expr)
    | MemDword(address: Expr)
    | Dollar
    | Cond(test: Expr, ifTrue: Expr, ifFalse: Expr)
    | Unary(uop: UnaryOp, operand: Expr)
    | Binary(bop: BinaryOp, left: Expr, right: Expr)
}
