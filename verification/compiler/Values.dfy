/** The values the interpreter computes with, reduced to the kinds that literals,
    comparisons and conditions can observe. */
module Values {
  import opened Options

  /** A number is its 64-bit pattern: equality compares patterns (values are NaN-boxed
      words), while arithmetic on patterns is left to `Alu` below. */
  datatype Value = Nil | Bool(b: bool) | Number(bits: nat) | Str(chars: string)

  const NEGATIVE_ZERO := 0x8000_0000_0000_0000

  predicate IsFalsey(v: Value) {
    match v
    case Nil => true
    case Bool(b) => !b
    case Number(bits) => bits == 0 || bits == NEGATIVE_ZERO
    case Str(chars) => chars == "" || chars[0] == '\0'
  }

  datatype Operator = Greater | Less | Add | Subtract | Multiply | Divide | Pow | Mod
                    | BitAnd | BitXor | BitOr

  /** The arithmetic unit. `None` is the runtime error for unsupported operand types.
      It is a parameter everywhere, so every result holds for every choice of it. */
  datatype Alu = Alu(binary: (Operator, Value, Value) -> Option<Value>, negate: Value -> Option<Value>)
}
