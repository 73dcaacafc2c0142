/** Instruction encoding: opcode numbers, operand widths, and reading an instruction back. */
module Bytecode {
  import opened Options
  import opened Values

  type Byte = b: int | 0 <= b < 256

  // Opcode numbers, in declaration order.
  const OP_CONSTANT: Byte := 0
  const OP_NIL: Byte := 1
  const OP_TRUE: Byte := 2
  const OP_FALSE: Byte := 3
  const OP_NEW_LIST: Byte := 4
  const OP_UNPACK_LIST: Byte := 5
  const OP_NEW_DICT: Byte := 6
  const OP_SUBSCRIPT: Byte := 7
  const OP_SUBSCRIPT_ASSIGN: Byte := 8
  const OP_SUBSCRIPT_PUSH: Byte := 9
  const OP_SLICE: Byte := 10
  const OP_POP: Byte := 11
  const OP_GET_LOCAL: Byte := 12
  const OP_SET_LOCAL: Byte := 13
  const OP_GET_GLOBAL: Byte := 14
  const OP_GET_MODULE: Byte := 15
  const OP_DEFINE_MODULE: Byte := 16
  const OP_DEFINE_OPTIONAL: Byte := 17
  const OP_SET_MODULE: Byte := 18
  const OP_GET_UPVALUE: Byte := 19
  const OP_SET_UPVALUE: Byte := 20
  const OP_GET_ATTRIBUTE: Byte := 21
  const OP_GET_PRIVATE_ATTRIBUTE: Byte := 22
  const OP_GET_ATTRIBUTE_NO_POP: Byte := 23
  const OP_GET_PRIVATE_ATTRIBUTE_NO_POP: Byte := 24
  const OP_SET_ATTRIBUTE: Byte := 25
  const OP_SET_PRIVATE_ATTRIBUTE: Byte := 26
  const OP_SET_CLASS_VAR: Byte := 27
  const OP_SET_INIT_ATTRIBUTES: Byte := 28
  const OP_SET_PRIVATE_INIT_ATTRIBUTES: Byte := 29
  const OP_GET_SUPER: Byte := 30
  const OP_EQUAL: Byte := 31
  const OP_GREATER: Byte := 32
  const OP_LESS: Byte := 33
  const OP_ADD: Byte := 34
  const OP_SUBTRACT: Byte := 35
  const OP_MULTIPLY: Byte := 36
  const OP_DIVIDE: Byte := 37
  const OP_POW: Byte := 38
  const OP_MOD: Byte := 39
  const OP_NOT: Byte := 40
  const OP_NEGATE: Byte := 41
  const OP_JUMP: Byte := 42
  const OP_MULTI_CASE: Byte := 43
  const OP_COMPARE_JUMP: Byte := 44
  const OP_JUMP_IF_FALSE: Byte := 45
  const OP_JUMP_IF_NIL: Byte := 46
  const OP_LOOP: Byte := 47
  const OP_CALL: Byte := 48
  const OP_INVOKE: Byte := 49
  const OP_INVOKE_INTERNAL: Byte := 50
  const OP_SUPER: Byte := 51
  const OP_CLOSURE: Byte := 52
  const OP_CLOSE_UPVALUE: Byte := 53
  const OP_RETURN: Byte := 54
  const OP_EMPTY: Byte := 55
  const OP_CLASS: Byte := 56
  const OP_SUBCLASS: Byte := 57
  const OP_DEFINE_CLASS_ANNOTATIONS: Byte := 58
  const OP_DEFINE_METHOD_ANNOTATIONS: Byte := 59
  const OP_DEFINE_FIELD_ANNOTATIONS: Byte := 60
  const OP_END_CLASS: Byte := 61
  const OP_METHOD: Byte := 62
  const OP_ENUM: Byte := 63
  const OP_SET_ENUM_VALUE: Byte := 64
  const OP_IMPORT: Byte := 65
  const OP_IMPORT_BUILTIN: Byte := 66
  const OP_IMPORT_BUILTIN_VARIABLE: Byte := 67
  const OP_IMPORT_VARIABLE: Byte := 68
  const OP_IMPORT_FROM: Byte := 69
  const OP_IMPORT_END: Byte := 70
  const OP_USE: Byte := 71
  const OP_OPEN_FILE: Byte := 72
  const OP_BREAK: Byte := 73
  const OP_CLOSE_FILE: Byte := 74
  const OP_BITWISE_AND: Byte := 75
  const OP_BITWISE_XOR: Byte := 76
  const OP_BITWISE_OR: Byte := 77
  const OP_POP_REPL: Byte := 78

  /** A function's code and its constant pool. */
  datatype Chunk = Chunk(code: seq<Byte>, constants: seq<Value>)

  /** The instructions the control-flow compiler emits, with decoded operands. */
  datatype Instr =
    | Constant(index: Byte) | PushNil | PushTrue | PushFalse | Pop
    | GetLocal(slot: Byte) | SetLocal(slot: Byte)
    | GetModule(index: Byte) | DefineModule(index: Byte) | SetModule(index: Byte)
    | TestEqual | Arithmetic(op: Operator) | Invert | Minus
    | Jump(offset: nat) | JumpIfFalse(offset: nat) | CompareJump(offset: nat) | Loop(offset: nat)
    | MultiCase(count: Byte) | BreakMark(offset: nat) | Return

  function OperatorCode(op: Operator): Byte {
    match op
    case Greater => OP_GREATER
    case Less => OP_LESS
    case Add => OP_ADD
    case Subtract => OP_SUBTRACT
    case Multiply => OP_MULTIPLY
    case Divide => OP_DIVIDE
    case Pow => OP_POW
    case Mod => OP_MOD
    case BitAnd => OP_BITWISE_AND
    case BitXor => OP_BITWISE_XOR
    case BitOr => OP_BITWISE_OR
  }

  function Opcode(i: Instr): Byte {
    match i
    case Constant(_) => OP_CONSTANT
    case PushNil => OP_NIL
    case PushTrue => OP_TRUE
    case PushFalse => OP_FALSE
    case Pop => OP_POP
    case GetLocal(_) => OP_GET_LOCAL
    case SetLocal(_) => OP_SET_LOCAL
    case GetModule(_) => OP_GET_MODULE
    case DefineModule(_) => OP_DEFINE_MODULE
    case SetModule(_) => OP_SET_MODULE
    case TestEqual => OP_EQUAL
    case Arithmetic(op) => OperatorCode(op)
    case Invert => OP_NOT
    case Minus => OP_NEGATE
    case Jump(_) => OP_JUMP
    case JumpIfFalse(_) => OP_JUMP_IF_FALSE
    case CompareJump(_) => OP_COMPARE_JUMP
    case Loop(_) => OP_LOOP
    case MultiCase(_) => OP_MULTI_CASE
    case BreakMark(_) => OP_BREAK
    case Return => OP_RETURN
  }

  /** Bytes an instruction occupies, opcode included. */
  function Size(i: Instr): nat {
    match i
    case Constant(_) | GetLocal(_) | SetLocal(_) | GetModule(_) | DefineModule(_) | SetModule(_) | MultiCase(_) => 2
    case Jump(_) | JumpIfFalse(_) | CompareJump(_) | Loop(_) | BreakMark(_) => 3
    case _ => 1
  }

  /** `READ_SHORT`: two operand bytes, high byte first. */
  function Short(code: seq<Byte>, p: nat): nat
    requires p + 2 <= |code|
  {
    code[p] as int * 256 + code[p + 1] as int
  }

  /** The instruction at offset `p` of `code` is `i`: its opcode byte and its operand bytes are there. */
  predicate At(code: seq<Byte>, p: nat, i: Instr) {
    && p + Size(i) <= |code|
    && code[p] == Opcode(i)
    && match i
       case Constant(n) => code[p + 1] == n
       case GetLocal(n) => code[p + 1] == n
       case SetLocal(n) => code[p + 1] == n
       case GetModule(n) => code[p + 1] == n
       case DefineModule(n) => code[p + 1] == n
       case SetModule(n) => code[p + 1] == n
       case MultiCase(n) => code[p + 1] == n
       case Jump(n) => Short(code, p + 1) == n
       case JumpIfFalse(n) => Short(code, p + 1) == n
       case CompareJump(n) => Short(code, p + 1) == n
       case Loop(n) => Short(code, p + 1) == n
       case BreakMark(n) => Short(code, p + 1) == n
       case _ => true
  }

  /** Instruction dispatch: what the opcode byte at `p` and the bytes after it mean. */
  function Fetch(code: seq<Byte>, p: nat): Option<Instr> {
    if p >= |code| then None
    else if IsJump(code[p]) then if p + 3 <= |code| then Some(JumpOf(code[p], Short(code, p + 1))) else None
    else if TakesByte(code[p]) then if p + 2 <= |code| then Some(OperandOf(code[p], code[p + 1])) else None
    else Simple(code[p])
  }

  function JumpOf(b: Byte, offset: nat): Instr {
    if b == OP_JUMP then Jump(offset)
    else if b == OP_JUMP_IF_FALSE then JumpIfFalse(offset)
    else if b == OP_COMPARE_JUMP then CompareJump(offset)
    else if b == OP_LOOP then Loop(offset)
    else BreakMark(offset)
  }

  function OperandOf(b: Byte, operand: Byte): Instr {
    if b == OP_CONSTANT then Constant(operand)
    else if b == OP_GET_LOCAL then GetLocal(operand)
    else if b == OP_SET_LOCAL then SetLocal(operand)
    else if b == OP_GET_MODULE then GetModule(operand)
    else if b == OP_DEFINE_MODULE then DefineModule(operand)
    else if b == OP_SET_MODULE then SetModule(operand)
    else MultiCase(operand)
  }

  predicate IsJump(b: Byte) {
    b == OP_JUMP || b == OP_JUMP_IF_FALSE || b == OP_COMPARE_JUMP || b == OP_LOOP || b == OP_BREAK
  }

  predicate TakesByte(b: Byte) {
    || b == OP_CONSTANT || b == OP_GET_LOCAL || b == OP_SET_LOCAL || b == OP_GET_MODULE
    || b == OP_DEFINE_MODULE || b == OP_SET_MODULE || b == OP_MULTI_CASE
  }

  function Simple(b: Byte): (r: Option<Instr>)
    ensures r.Some? ==> Size(r.value) == 1
  {
    if b == OP_NIL then Some(PushNil)
    else if b == OP_TRUE then Some(PushTrue)
    else if b == OP_FALSE then Some(PushFalse)
    else if b == OP_POP then Some(Pop)
    else if b == OP_EQUAL then Some(TestEqual)
    else if b == OP_NOT then Some(Invert)
    else if b == OP_NEGATE then Some(Minus)
    else if b == OP_RETURN then Some(Return)
    else if b == OP_GREATER then Some(Arithmetic(Greater))
    else if b == OP_LESS then Some(Arithmetic(Less))
    else if b == OP_ADD then Some(Arithmetic(Add))
    else if b == OP_SUBTRACT then Some(Arithmetic(Subtract))
    else if b == OP_MULTIPLY then Some(Arithmetic(Multiply))
    else if b == OP_DIVIDE then Some(Arithmetic(Divide))
    else if b == OP_POW then Some(Arithmetic(Pow))
    else if b == OP_MOD then Some(Arithmetic(Mod))
    else if b == OP_BITWISE_AND then Some(Arithmetic(BitAnd))
    else if b == OP_BITWISE_XOR then Some(Arithmetic(BitXor))
    else if b == OP_BITWISE_OR then Some(Arithmetic(BitOr))
    else None
  }

  /** Dispatch reads back exactly what was emitted. */
  lemma FetchAt(code: seq<Byte>, p: nat, i: Instr)
    requires At(code, p, i)
    ensures Fetch(code, p) == Some(i)
  {
  }
}
