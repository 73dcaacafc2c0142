/** The interpreter: one function for a single instruction, and the dispatch loop that
    overwrites the stack and the instruction pointer in place. */
module Machine {
  import opened Options
  import opened Values
  import opened Bytecode

  /** `Halted` keeps what is left on the stack after the program returned; `Stuck` stands for
      what the interpreter does not define (underflow, a byte that is not an instruction). */
  datatype Config =
    | Running(ip: nat, stack: seq<Value>, globals: map<string, Value>)
    | Halted(stack: seq<Value>, globals: map<string, Value>)
    | Faulted(globals: map<string, Value>)
    | Stuck

  function Step(alu: Alu, ch: Chunk, c: Config): Config {
    match c
    case Running(ip, stack, globals) =>
      (match Fetch(ch.code, ip)
       case None => Stuck
       case Some(i) => Execute(alu, ch.constants, i, ip, stack, globals))
    case other => other
  }

  /** One instruction, found at offset `ip`. */
  function Execute(alu: Alu, constants: seq<Value>, i: Instr, ip: nat, stack: seq<Value>,
                   globals: map<string, Value>): Config
  {
    var n := |stack|;
    var next := ip + Size(i);
    match i
    case Constant(k) => if k < |constants| then Running(next, stack + [constants[k]], globals) else Stuck
    case PushNil => Running(next, stack + [Nil], globals)
    case PushTrue => Running(next, stack + [Bool(true)], globals)
    case PushFalse => Running(next, stack + [Bool(false)], globals)
    case Pop => if n > 0 then Running(next, stack[..n - 1], globals) else Stuck
    case GetLocal(k) => if k < n then Running(next, stack + [stack[k]], globals) else Stuck
    case SetLocal(k) => if k < n then Running(next, stack[k := stack[n - 1]], globals) else Stuck
    case GetModule(k) =>
      if k < |constants| && constants[k].Str? then
        if constants[k].chars in globals then Running(next, stack + [globals[constants[k].chars]], globals)
        else Faulted(globals)
      else Stuck
    case DefineModule(k) =>
      if n > 0 && k < |constants| && constants[k].Str? then
        Running(next, stack[..n - 1], globals[constants[k].chars := stack[n - 1]])
      else Stuck
    case SetModule(k) =>
      if n > 0 && k < |constants| && constants[k].Str? then
        if constants[k].chars in globals then Running(next, stack, globals[constants[k].chars := stack[n - 1]])
        else Faulted(globals)
      else Stuck
    case TestEqual =>
      if n > 1 then Running(next, stack[..n - 2] + [Bool(stack[n - 2] == stack[n - 1])], globals) else Stuck
    case Arithmetic(op) =>
      if n > 1 then
        match alu.binary(op, stack[n - 2], stack[n - 1])
        case Some(v) => Running(next, stack[..n - 2] + [v], globals)
        case None => Faulted(globals)
      else Stuck
    case Invert => if n > 0 then Running(next, stack[..n - 1] + [Bool(IsFalsey(stack[n - 1]))], globals) else Stuck
    case Minus =>
      if n > 0 then
        match alu.negate(stack[n - 1])
        case Some(v) => Running(next, stack[..n - 1] + [v], globals)
        case None => Faulted(globals)
      else Stuck
    case Jump(offset) => Running(next + offset, stack, globals)
    case JumpIfFalse(offset) =>
      if n > 0 then Running(if IsFalsey(stack[n - 1]) then next + offset else next, stack, globals) else Stuck
    case CompareJump(offset) =>
      if n > 1 then
        if stack[n - 2] == stack[n - 1] then Running(next, stack[..n - 2], globals)
        else Running(next + offset, stack[..n - 1], globals)
      else Stuck
    case Loop(offset) => if offset <= next then Running(next - offset, stack, globals) else Stuck
    case MultiCase(count) =>
      if n > count + 1 then
        var base := n - count - 1;
        Running(next, stack[..base] + [Pick(stack[base - 1], stack[base..])], globals)
      else Stuck
    case BreakMark(_) => Running(ip + 1, stack, globals)
    case Return => if n > 1 then Halted(stack[..n - 2], globals) else Stuck
  }

  /** Of the case values, the last one equal to the subject; the first one if none but
      perhaps the first is. */
  function Pick(subject: Value, values: seq<Value>): (v: Value)
    requires |values| > 0
    ensures v in values
    ensures v == subject <==> subject in values
  {
    if |values| == 1 || values[|values| - 1] == subject then values[|values| - 1]
    else Pick(subject, values[..|values| - 1])
  }

  function StepN(alu: Alu, ch: Chunk, c: Config, n: nat): Config
    decreases n
  {
    if n == 0 then c else StepN(alu, ch, Step(alu, ch, c), n - 1)
  }

  lemma {:induction false} StepsAdd(alu: Alu, ch: Chunk, c: Config, m: nat, n: nat)
    ensures StepN(alu, ch, c, m + n) == StepN(alu, ch, StepN(alu, ch, c, m), n)
    decreases m
  {
    if m > 0 {
      StepsAdd(alu, ch, Step(alu, ch, c), m - 1, n);
    }
  }

  /** A machine that has stopped stays as it is. */
  lemma {:induction false} StoppedStays(alu: Alu, ch: Chunk, c: Config, n: nat)
    requires !c.Running?
    ensures StepN(alu, ch, c, n) == c
    decreases n
  {
    if n > 0 {
      StoppedStays(alu, ch, c, n - 1);
    }
  }

  // ---- the dispatch loop ----

  datatype Status = Going | Over | Error | Undefined

  /** Picking among `stack[base..base + k + 1]` looks at the last value first. */
  lemma PickStep(subject: Value, stack: seq<Value>, base: nat, k: nat)
    requires base + k < |stack|
    ensures Pick(subject, stack[base..base + k + 1]) ==
            if k == 0 || stack[base + k] == subject then stack[base + k] else Pick(subject, stack[base..base + k])
  {
    assert stack[base..base + k + 1][..k] == stack[base..base + k];
  }

  lemma Popped(before: seq<Value>, n: nat, rest: seq<Value>, v: Value)
    requires 0 < n <= |before| && before[..n] == rest + [v]
    ensures rest == before[..n - 1] && v == before[n - 1]
  {
    assert before[..n][..n - 1] == rest && before[..n][n - 1] == v;
  }

  class Vm {
    const alu: Alu
    const chunk: Chunk
    var ip: nat
    var stack: seq<Value>
    var globals: map<string, Value>
    var status: Status

    ghost function State(): Config
      reads this
    {
      match status
      case Going => Running(ip, stack, globals)
      case Over => Halted(stack, globals)
      case Error => Faulted(globals)
      case Undefined => Stuck
    }

    constructor (alu: Alu, chunk: Chunk, callee: Value, globals: map<string, Value>)
      ensures this.alu == alu && this.chunk == chunk && State() == Running(0, [callee], globals)
    {
      this.alu, this.chunk := alu, chunk;
      ip, stack, this.globals, status := 0, [callee], globals, Going;
    }

    method Push(v: Value)
      modifies this`stack
      ensures stack == old(stack) + [v]
    {
      stack := stack + [v];
    }

    method PopValue() returns (v: Value)
      requires |stack| > 0
      modifies this`stack
      ensures old(stack) == stack + [v]
    {
      v := stack[|stack| - 1];
      stack := stack[..|stack| - 1];
    }

    function Peek(distance: nat): (v: Value)
      requires distance < |stack|
      reads this
    {
      stack[|stack| - 1 - distance]
    }

    method ReadByte() returns (b: Byte)
      requires ip < |chunk.code|
      modifies this`ip
      ensures b == chunk.code[old(ip)] && ip == old(ip) + 1
    {
      b := chunk.code[ip];
      ip := ip + 1;
    }

    method ReadShort() returns (n: nat)
      requires ip + 2 <= |chunk.code|
      modifies this`ip
      ensures n == Short(chunk.code, old(ip)) && ip == old(ip) + 2
    {
      ip := ip + 2;
      n := chunk.code[ip - 2] as int * 256 + chunk.code[ip - 1] as int;
    }

    /** Runs for at most `limit` instructions. */
    method Run(limit: nat)
      modifies this
      ensures State() == StepN(alu, chunk, old(State()), limit)
    {
      hide Step;
      var left: nat := limit;
      while left > 0 && status == Going
        invariant left <= limit
        invariant StepN(alu, chunk, State(), left) == StepN(alu, chunk, old(State()), limit)
      {
        Dispatch();
        left := left - 1;
      }
      if status != Going { StoppedStays(alu, chunk, State(), left); }
    }

    /** One instruction. */
    method Dispatch()
      requires status == Going
      modifies this
      ensures State() == Step(alu, chunk, old(State()))
    {
      hide Execute, JumpOf, OperandOf, Simple, Short;
      if ip >= |chunk.code| {
        status := Undefined;
        return;
      }
      var opcode := ReadByte();
      if IsJump(opcode) {
        if ip + 2 > |chunk.code| {
          status := Undefined;
          return;
        }
        var offset := ReadShort();
        DispatchJump(opcode, offset);
      } else if TakesByte(opcode) {
        if ip >= |chunk.code| {
          status := Undefined;
          return;
        }
        var operand := ReadByte();
        DispatchOperand(opcode, operand);
      } else {
        match Simple(opcode)
        case None => status := Undefined;
        case Some(instr) => DispatchSimple(instr);
      }
    }

    /** Instructions with a jump distance, which has been read already. */
    method DispatchJump(opcode: Byte, offset: nat)
      requires status == Going && IsJump(opcode) && ip >= 3
      modifies this
      ensures State() == Execute(alu, chunk.constants, JumpOf(opcode, offset), old(ip) - 3, old(stack), old(globals))
    {
      var n := |stack|;
      if opcode == OP_JUMP {
        ip := ip + offset;
      } else if opcode == OP_JUMP_IF_FALSE {
        if n == 0 { status := Undefined; return; }
        if IsFalsey(Peek(0)) { ip := ip + offset; }
      } else if opcode == OP_COMPARE_JUMP {
        if n < 2 { status := Undefined; return; }
        var a := PopValue();
        if Peek(0) != a {
          ip := ip + offset;
        } else {
          var _ := PopValue();
        }
      } else if opcode == OP_LOOP {
        if offset > ip { status := Undefined; return; }
        ip := ip - offset;
      } else {
        ip := ip - 2;
      }
    }

    /** Instructions with a one-byte operand. */
    method DispatchOperand(opcode: Byte, operand: Byte)
      requires status == Going && TakesByte(opcode) && ip >= 2
      modifies this
      ensures State() == Execute(alu, chunk.constants, OperandOf(opcode, operand), old(ip) - 2, old(stack), old(globals))
    {
      var n := |stack|;
      if opcode == OP_MULTI_CASE {
        if n <= operand + 1 { status := Undefined; return; }
        MultiCaseValues(operand);
      } else if opcode == OP_GET_LOCAL {
        if operand >= n { status := Undefined; return; }
        Push(stack[operand]);
      } else if opcode == OP_SET_LOCAL {
        if operand >= n { status := Undefined; return; }
        stack := stack[operand := Peek(0)];
      } else if operand >= |chunk.constants| {
        status := Undefined;
      } else if opcode == OP_CONSTANT {
        Push(chunk.constants[operand]);
      } else {
        DispatchModule(opcode, operand);
      }
    }

    /** Module variables, looked up by a name among the constants. */
    method DispatchModule(opcode: Byte, operand: Byte)
      requires status == Going && ip >= 2 && operand < |chunk.constants|
      requires opcode == OP_GET_MODULE || opcode == OP_DEFINE_MODULE || opcode == OP_SET_MODULE
      modifies this
      ensures State() == Execute(alu, chunk.constants, OperandOf(opcode, operand), old(ip) - 2, old(stack), old(globals))
    {
      if !chunk.constants[operand].Str? || (opcode != OP_GET_MODULE && |stack| == 0) {
        status := Undefined;
        return;
      }
      var name := chunk.constants[operand].chars;
      if opcode == OP_GET_MODULE {
        if name !in globals { status := Error; return; }
        Push(globals[name]);
      } else if opcode == OP_DEFINE_MODULE {
        globals := globals[name := Peek(0)];
        var _ := PopValue();
      } else {
        if name !in globals { status := Error; return; }
        globals := globals[name := Peek(0)];
      }
    }

    /** Pops `count + 1` case values and pushes back the one to compare: the uppermost equal to the
        subject below them, or the lowest. */
    method MultiCaseValues(count: nat)
      requires |stack| > count + 1
      modifies this`stack
      ensures var base := old(|stack|) - count - 1;
              stack == old(stack)[..base] + [Pick(old(stack)[base - 1], old(stack)[base..])]
    {
      hide Pick;
      ghost var before, base := stack, |stack| - count - 1;
      assert before == before[..|before|];
      var switchValue := Peek(count + 1);
      var caseValue := PopValue();
      Popped(before, |before|, stack, caseValue);
      assert before[base..base + count + 1] == before[base..];
      caseValue := UppermostEqual(count, switchValue, caseValue, before, base);
      Push(caseValue);
    }

    /** Pops `count` more values, looking at them until one is equal to the subject. */
    method UppermostEqual(count: nat, switchValue: Value, first: Value, ghost before: seq<Value>, ghost base: nat)
      returns (caseValue: Value)
      requires base + count < |before| && stack == before[..base + count] && first == before[base + count]
      modifies this`stack
      ensures stack == before[..base] && caseValue == Pick(switchValue, before[base..base + count + 1])
    {
      hide Pick;
      caseValue := first;
      var i := 0;
      ghost var picked := Pick(switchValue, before[base..base + count + 1]);
      while i < count
        invariant 0 <= i <= count && stack == before[..base + count - i] && caseValue == before[base + count - i]
        invariant Pick(switchValue, before[base..base + count - i + 1]) == picked
        decreases count - i
      {
        PickStep(switchValue, before, base, count - i);
        if switchValue == caseValue {
          i := i + 1;
          PopTo(count, i);
          return;
        }
        caseValue := PopValue();
        Popped(before, base + count - i, stack, caseValue);
        i := i + 1;
      }
      PickStep(switchValue, before, base, 0);
    }

    /** Pops the values that need not be looked at any more. */
    method PopTo(count: nat, from: nat)
      requires from <= count + 1 && |stack| >= count + 1 - from
      modifies this`stack
      ensures stack == old(stack)[..old(|stack|) - (count + 1 - from)]
    {
      var i := from;
      while i <= count
        invariant from <= i <= count + 1 && |stack| >= count + 1 - i
        invariant stack == old(stack)[..old(|stack|) - (i - from)]
      {
        var _ := PopValue();
        i := i + 1;
      }
    }

    /** Instructions without operands. */
    method DispatchSimple(instr: Instr)
      requires status == Going && ip >= 1 && Size(instr) == 1
      modifies this
      ensures State() == Execute(alu, chunk.constants, instr, old(ip) - 1, old(stack), old(globals))
    {
      match instr
      case PushNil => Push(Nil);
      case PushTrue => Push(Bool(true));
      case PushFalse => Push(Bool(false));
      case Arithmetic(op) => BinaryOperation(op);
      case TestEqual =>
        if |stack| < 2 { status := Undefined; return; }
        var b := PopValue();
        var a := PopValue();
        Push(Bool(a == b));
      case Pop =>
        if |stack| == 0 { status := Undefined; return; }
        var _ := PopValue();
      case Invert =>
        if |stack| == 0 { status := Undefined; return; }
        var v := PopValue();
        Push(Bool(IsFalsey(v)));
      case Minus =>
        if |stack| == 0 { status := Undefined; return; }
        match alu.negate(Peek(0)) {
          case None => status := Error;
          case Some(v) =>
            var _ := PopValue();
            Push(v);
        }
      case Return =>
        if |stack| < 2 { status := Undefined; return; }
        var _ := PopValue();
        var _ := PopValue();
        status := Over;
    }

    /** The operands stay on the stack until it is known that their types fit. */
    method BinaryOperation(op: Operator)
      requires status == Going && ip >= 1
      modifies this
      ensures State() == Execute(alu, chunk.constants, Arithmetic(op), old(ip) - 1, old(stack), old(globals))
    {
      if |stack| < 2 { status := Undefined; return; }
      match alu.binary(op, Peek(1), Peek(0))
      case None => status := Error;
      case Some(v) =>
        var _ := PopValue();
        stack := stack[|stack| - 1 := v];
    }
  }
}
