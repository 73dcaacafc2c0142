/** Running the code of an expression pushes the value the semantics gives it. */
module ExprPreservation {
  import opened Options
  import opened Values
  import opened Language
  import opened Semantics
  import opened Bytecode
  import opened Machine
  import opened Layout

  /** The stack while the variables of `scope` are live and `temps` are pending: slot zero is the
      running function, then one slot per variable. */
  function Stack(callee: Value, scope: seq<Binding>, temps: seq<Value>): (s: seq<Value>)
    ensures |s| == 1 + |scope| + |temps|
  {
    [callee] + seq(|scope|, i requires 0 <= i < |scope| => scope[i].value) + temps
  }

  function At0(p: nat, callee: Value, st: State, temps: seq<Value>): Config {
    Running(p, Stack(callee, st.scope, temps), st.globals)
  }

  predicate Agree(names: seq<string>, scope: seq<Binding>) {
    |names| == |scope| && forall i :: 0 <= i < |names| ==> names[i] == scope[i].name
  }

  /** Where the machine is after an evaluation: the value on top, or stopped by a runtime error. */
  function After(r: Evaluation, q: nat, callee: Value, temps: seq<Value>): Config {
    match r
    case Yields(v, st) => At0(q, callee, st, temps + [v])
    case Fault(g) => Faulted(g)
  }

  lemma SameResolution(names: seq<string>, scope: seq<Binding>, name: string)
    requires Agree(names, scope)
    ensures Resolve(names, name) == Innermost(scope, name)
  {
  }

  /** Appends the instruction at the current offset to a run. */
  lemma OneMore(alu: Alu, ch: Chunk, c: Config, n: nat, i: Instr)
    requires StepN(alu, ch, c, n).Running?
    requires At(ch.code, StepN(alu, ch, c, n).ip, i)
    ensures var d := StepN(alu, ch, c, n);
            StepN(alu, ch, c, n + 1) == Execute(alu, ch.constants, i, d.ip, d.stack, d.globals)
  {
    var d := StepN(alu, ch, c, n);
    StepsAdd(alu, ch, c, n, 1);
    FetchAt(ch.code, d.ip, i);
    assert StepN(alu, ch, d, 1) == StepN(alu, ch, Step(alu, ch, d), 0);
  }

  lemma ZeroSteps(alu: Alu, ch: Chunk, c: Config)
    ensures StepN(alu, ch, c, 0) == c
  {
  }

  lemma Join(alu: Alu, ch: Chunk, c: Config, m: nat, n: nat)
    ensures StepN(alu, ch, c, m + n) == StepN(alu, ch, StepN(alu, ch, c, m), n)
  {
    StepsAdd(alu, ch, c, m, n);
  }

  // ---- one instruction at a time: `c` is where the run began and `n` how long it is ----

  lemma PopRuns(alu: Alu, ch: Chunk, c: Config, n: nat, q: nat, callee: Value, st: State, temps: seq<Value>, v: Value)
    requires StepN(alu, ch, c, n) == At0(q, callee, st, temps + [v]) && At(ch.code, q, Pop)
    ensures StepN(alu, ch, c, n + 1) == At0(q + 1, callee, st, temps)
  {
    hide StepN, Step, Fetch;
    OneMore(alu, ch, c, n, Pop);
    assert Stack(callee, st.scope, temps + [v]) == Stack(callee, st.scope, temps) + [v];
  }

  lemma JumpRuns(alu: Alu, ch: Chunk, c: Config, n: nat, q: nat, offset: nat, callee: Value, st: State, temps: seq<Value>)
    requires StepN(alu, ch, c, n) == At0(q, callee, st, temps) && At(ch.code, q, Jump(offset))
    ensures StepN(alu, ch, c, n + 1) == At0(q + 3 + offset, callee, st, temps)
  {
    hide StepN, Step, Fetch;
    OneMore(alu, ch, c, n, Jump(offset));
  }

  lemma TestRuns(alu: Alu, ch: Chunk, c: Config, n: nat, q: nat, offset: nat, callee: Value, st: State,
                 temps: seq<Value>, v: Value)
    requires StepN(alu, ch, c, n) == At0(q, callee, st, temps + [v]) && At(ch.code, q, JumpIfFalse(offset))
    ensures StepN(alu, ch, c, n + 1) == At0(if IsFalsey(v) then q + 3 + offset else q + 3, callee, st, temps + [v])
  {
    hide StepN, Step, Fetch;
    OneMore(alu, ch, c, n, JumpIfFalse(offset));
    var top := Stack(callee, st.scope, temps + [v]);
    assert top[|top| - 1] == v;
  }

  /** A conditional jump with the pop of the condition behind it. */
  lemma BranchRuns(alu: Alu, ch: Chunk, c: Config, n: nat, q: nat, offset: nat, callee: Value, st: State,
                   temps: seq<Value>, v: Value) returns (k: nat)
    requires StepN(alu, ch, c, n) == At0(q, callee, st, temps + [v])
    requires At(ch.code, q, JumpIfFalse(offset)) && At(ch.code, q + 3, Pop)
    ensures k > n
    ensures StepN(alu, ch, c, k) ==
            if IsFalsey(v) then At0(q + 3 + offset, callee, st, temps + [v]) else At0(q + 4, callee, st, temps)
  {
    hide StepN, Step, Execute, Fetch, At, Stack;
    TestRuns(alu, ch, c, n, q, offset, callee, st, temps, v);
    k := n + 1;
    if !IsFalsey(v) {
      PopRuns(alu, ch, c, k, q + 3, callee, st, temps, v);
      k := k + 1;
    }
  }

  /** An instruction that replaces the top of the stack, or stops with a runtime error. */
  lemma UnaryRuns(alu: Alu, ch: Chunk, c: Config, n: nat, q: nat, i: Instr, callee: Value, st: State,
                  temps: seq<Value>, v: Value)
    requires StepN(alu, ch, c, n) == At0(q, callee, st, temps + [v]) && At(ch.code, q, i)
    requires i.Invert? || i.Minus?
    ensures StepN(alu, ch, c, n + 1) ==
            After(Result(if i.Invert? then Some(Bool(IsFalsey(v))) else alu.negate(v), st), q + 1, callee, temps)
  {
    hide StepN, Step, Fetch;
    OneMore(alu, ch, c, n, i);
    var below := Stack(callee, st.scope, temps);
    assert Stack(callee, st.scope, temps + [v]) == below + [v];
    assert forall w :: Stack(callee, st.scope, temps + [w]) == below + [w];
  }

  lemma BinaryStep(alu: Alu, ch: Chunk, c: Config, n: nat, q: nat, i: Instr, callee: Value, st: State,
                   temps: seq<Value>, a: Value, b: Value)
    requires StepN(alu, ch, c, n) == At0(q, callee, st, temps + [a] + [b]) && At(ch.code, q, i)
    requires i.TestEqual? || i.Arithmetic?
    ensures StepN(alu, ch, c, n + 1) ==
            After(Result(if i.TestEqual? then Some(Bool(a == b)) else alu.binary(i.op, a, b), st), q + 1, callee, temps)
  {
    hide StepN, Step, Fetch;
    OneMore(alu, ch, c, n, i);
    var below := Stack(callee, st.scope, temps);
    assert Stack(callee, st.scope, temps + [a] + [b]) == below + [a] + [b];
    assert forall w :: Stack(callee, st.scope, temps + [w]) == below + [w];
  }

  /** The one or two instructions of a binary operator. */
  lemma OperatorRuns(alu: Alu, ch: Chunk, c: Config, n: nat, q: nat, op: BinaryOp, callee: Value, st: State,
                     temps: seq<Value>, a: Value, b: Value) returns (k: nat)
    requires StepN(alu, ch, c, n) == At0(q, callee, st, temps + [a] + [b]) && OperatorAt(ch.code, op, q)
    ensures k > n
    ensures StepN(alu, ch, c, k) == After(Result(Apply(alu, op, a, b), st), q + OpLen(op), callee, temps)
  {
    hide StepN, Step, Execute, Fetch, At, Stack, Names, Resolve;
    var i := match op
      case Equal => TestEqual
      case NotEqual => TestEqual
      case GreaterEqual => Arithmetic(Less)
      case LessEqual => Arithmetic(Greater)
      case Op(o) => Arithmetic(o);
    BinaryStep(alu, ch, c, n, q, i, callee, st, temps, a, b);
    k := n + 1;
    if OpLen(op) == 2 && StepN(alu, ch, c, k).Running? {
      var v := if op.NotEqual? then Bool(a == b) else alu.binary(i.op, a, b).value;
      UnaryRuns(alu, ch, c, k, q + 1, Invert, callee, st, temps, v);
      k := k + 1;
    }
  }

  lemma LiteralRuns(alu: Alu, ch: Chunk, c: Config, n: nat, v: Value, p: nat, callee: Value, st: State, temps: seq<Value>)
    requires StepN(alu, ch, c, n) == At0(p, callee, st, temps) && LiteralAt(ch, v, p)
    ensures StepN(alu, ch, c, n + 1) == After(Eval(alu, Literal(v), st), p + ExprLen(Literal(v)), callee, temps)
  {
    hide StepN, Step, Fetch;
    var i := match v
      case Nil => PushNil
      case Bool(b) => if b then PushTrue else PushFalse
      case _ => Constant(ch.code[p + 1]);
    OneMore(alu, ch, c, n, i);
    assert Stack(callee, st.scope, temps + [v]) == Stack(callee, st.scope, temps) + [v];
  }

  lemma VariableRuns(alu: Alu, ch: Chunk, c: Config, n: nat, name: Name, names: seq<string>, p: nat, callee: Value,
                     st: State, temps: seq<Value>)
    requires StepN(alu, ch, c, n) == At0(p, callee, st, temps)
    requires ExprAt(ch, Variable(name), names, p) && Agree(names, st.scope)
    ensures StepN(alu, ch, c, n + 1) ==
            After(Eval(alu, Variable(name), st), p + ExprLen(Variable(name)), callee, temps)
  {
    hide StepN, Step, Fetch;
    SameResolution(names, st.scope, name);
    var i := Resolve(names, name);
    var below := Stack(callee, st.scope, temps);
    assert forall w :: Stack(callee, st.scope, temps + [w]) == below + [w];
    if 0 <= i {
      OneMore(alu, ch, c, n, GetLocal(i + 1));
      assert below[i + 1] == st.scope[i].value;
    } else {
      OneMore(alu, ch, c, n, GetModule(ch.code[p + 1]));
    }
  }

  /** The store instruction of an assignment; the assigned value stays on the stack. */
  lemma StoreRuns(alu: Alu, ch: Chunk, c: Config, n: nat, q: nat, name: Name, names: seq<string>, callee: Value,
                  st: State, temps: seq<Value>, v: Value)
    requires StepN(alu, ch, c, n) == At0(q, callee, st, temps + [v]) && Agree(names, st.scope)
    requires var i := Resolve(names, name);
             if 0 <= i then i + 1 < 256 && At(ch.code, q, SetLocal(i + 1)) else Names(ch, q, OP_SET_MODULE, Str(name))
    ensures StepN(alu, ch, c, n + 1) == After(Store(name, v, st), q + 2, callee, temps)
  {
    hide StepN, Step, Fetch;
    SameResolution(names, st.scope, name);
    var i := Resolve(names, name);
    var top := Stack(callee, st.scope, temps + [v]);
    assert top[|top| - 1] == v;
    if 0 <= i {
      OneMore(alu, ch, c, n, SetLocal(i + 1));
      assert top[i + 1 := v] == Stack(callee, st.scope[i := Binding(name, v)], temps + [v]);
    } else {
      OneMore(alu, ch, c, n, SetModule(ch.code[q + 1]));
    }
  }

  /** Expressions never declare or forget a variable. */
  lemma {:induction false} EvalAgrees(alu: Alu, e: Expr, names: seq<string>, st: State)
    requires Agree(names, st.scope)
    ensures var r := Eval(alu, e, st); r.Yields? ==> Agree(names, r.state.scope)
    decreases e
  {
    match e
    case Literal(_) =>
    case Variable(_) =>
    case Assign(_, rhs) => EvalAgrees(alu, rhs, names, st);
    case Not(e1) => EvalAgrees(alu, e1, names, st);
    case Negate(e1) => EvalAgrees(alu, e1, names, st);
    case Binary(_, l, r) =>
      EvalAgrees(alu, l, names, st);
      var a := Eval(alu, l, st);
      if a.Yields? { EvalAgrees(alu, r, names, a.state); }
    case And(l, r) =>
      EvalAgrees(alu, l, names, st);
      var a := Eval(alu, l, st);
      if a.Yields? { EvalAgrees(alu, r, names, a.state); }
    case Or(l, r) =>
      EvalAgrees(alu, l, names, st);
      var a := Eval(alu, l, st);
      if a.Yields? { EvalAgrees(alu, r, names, a.state); }
    case Ternary(c, yes, no) =>
      EvalAgrees(alu, c, names, st);
      var a := Eval(alu, c, st);
      if a.Yields? {
        EvalAgrees(alu, yes, names, a.state);
        EvalAgrees(alu, no, names, a.state);
      }
  }

  /** The code of `e` at `p` computes `Eval(e)`, whatever lies below on the stack. */
  lemma {:induction false} ExprRuns(alu: Alu, ch: Chunk, e: Expr, names: seq<string>, p: nat, callee: Value,
                                    st: State, temps: seq<Value>) returns (n: nat)
    requires ExprAt(ch, e, names, p) && Agree(names, st.scope)
    ensures StepN(alu, ch, At0(p, callee, st, temps), n) == After(Eval(alu, e, st), p + ExprLen(e), callee, temps)
    decreases e, 1
  {
    hide Eval, After, ExprLen, Apply, LiteralAt, OperatorAt;
    hide StepN, Step, Execute, Fetch, At, Stack, Names, Resolve;
    var c := At0(p, callee, st, temps);
    match e
    case Literal(v) =>
      ZeroSteps(alu, ch, c);
      LiteralRuns(alu, ch, c, 0, v, p, callee, st, temps);
      n := 1;
    case Variable(name) =>
      ZeroSteps(alu, ch, c);
      VariableRuns(alu, ch, c, 0, name, names, p, callee, st, temps);
      n := 1;
    case Assign(name, rhs) =>
      n := ExprRuns(alu, ch, rhs, names, p, callee, st, temps);
      EvalAgrees(alu, rhs, names, st);
      n := AssignDone(alu, ch, name, rhs, names, p, callee, st, temps, n);
    case Not(e1) =>
      n := ExprRuns(alu, ch, e1, names, p, callee, st, temps);
      n := OperandDone(alu, ch, e1, Invert, p, callee, st, temps, n);
    case Negate(e1) =>
      n := ExprRuns(alu, ch, e1, names, p, callee, st, temps);
      n := OperandDone(alu, ch, e1, Minus, p, callee, st, temps, n);
    case _ => n := CompoundRuns(alu, ch, e, names, p, callee, st, temps);
  }

  lemma AssignDone(alu: Alu, ch: Chunk, name: Name, rhs: Expr, names: seq<string>, p: nat, callee: Value, st: State,
                   temps: seq<Value>, m: nat) returns (n: nat)
    requires ExprAt(ch, Assign(name, rhs), names, p)
    requires var a := Eval(alu, rhs, st); a.Yields? ==> Agree(names, a.state.scope)
    requires StepN(alu, ch, At0(p, callee, st, temps), m) == After(Eval(alu, rhs, st), p + ExprLen(rhs), callee, temps)
    ensures var e := Assign(name, rhs);
            StepN(alu, ch, At0(p, callee, st, temps), n) == After(Eval(alu, e, st), p + ExprLen(e), callee, temps)
  {
    hide StepN, Step, Execute, Fetch, At, Stack, Names, Resolve, ExprAt, ExprLen;
    AssignIs(ch, name, rhs, names, p);
    n := m;
    var a := Eval(alu, rhs, st);
    if a.Yields? {
      StoreRuns(alu, ch, At0(p, callee, st, temps), n, p + ExprLen(rhs), name, names, callee, a.state, temps, a.value);
      n := n + 1;
    }
  }

  lemma OperandDone(alu: Alu, ch: Chunk, e1: Expr, i: Instr, p: nat, callee: Value, st: State, temps: seq<Value>,
                    m: nat) returns (n: nat)
    requires (i.Invert? || i.Minus?) && At(ch.code, p + ExprLen(e1), i)
    requires StepN(alu, ch, At0(p, callee, st, temps), m) == After(Eval(alu, e1, st), p + ExprLen(e1), callee, temps)
    ensures var e := if i.Invert? then Not(e1) else Negate(e1);
            StepN(alu, ch, At0(p, callee, st, temps), n) == After(Eval(alu, e, st), p + ExprLen(e), callee, temps)
  {
    hide StepN, Step, Execute, Fetch, At, Stack, Names, Resolve;
    n := m;
    var a := Eval(alu, e1, st);
    if a.Yields? {
      UnaryRuns(alu, ch, At0(p, callee, st, temps), n, p + ExprLen(e1), i, callee, a.state, temps, a.value);
      n := n + 1;
    }
  }

  /** Expressions with more than one operand: the first operand always runs first. */
  lemma {:induction false} CompoundRuns(alu: Alu, ch: Chunk, e: Expr, names: seq<string>, p: nat, callee: Value,
                                        st: State, temps: seq<Value>) returns (n: nat)
    requires ExprAt(ch, e, names, p) && Agree(names, st.scope)
    requires e.Binary? || e.And? || e.Or? || e.Ternary?
    ensures StepN(alu, ch, At0(p, callee, st, temps), n) == After(Eval(alu, e, st), p + ExprLen(e), callee, temps)
    decreases e, 0
  {
    hide StepN, Step, Execute, Fetch, At, Stack, Names, Resolve;
    var l := if e.Ternary? then e.cond else e.left;
    n := ExprRuns(alu, ch, l, names, p, callee, st, temps);
    EvalAgrees(alu, l, names, st);
    var a := Eval(alu, l, st);
    if a.Yields? {
      if e.Binary? {
        n := BinaryRuns(alu, ch, e, names, p, callee, st, temps, a, n);
      } else if e.Ternary? {
        n := TernaryRuns(alu, ch, e, names, p, callee, st, temps, a, n);
      } else {
        n := ShortCircuitRuns(alu, ch, e, names, p, callee, st, temps, a, n);
      }
    }
  }

  lemma {:induction false} BinaryRuns(alu: Alu, ch: Chunk, e: Expr, names: seq<string>, p: nat, callee: Value,
                                      st: State, temps: seq<Value>, a: Evaluation, m: nat) returns (n: nat)
    requires e.Binary? && ExprAt(ch, e, names, p) && a == Eval(alu, e.left, st) && a.Yields?
    requires Agree(names, a.state.scope)
    requires StepN(alu, ch, At0(p, callee, st, temps), m) == After(a, p + ExprLen(e.left), callee, temps)
    ensures StepN(alu, ch, At0(p, callee, st, temps), n) == After(Eval(alu, e, st), p + ExprLen(e), callee, temps)
    decreases e.right, 2
  {
    hide StepN, Step, Execute, Fetch, At, Stack, Names, Resolve, ExprAt, ExprLen;
    BinaryIs(ch, e.op, e.left, e.right, names, p);
    var c := At0(p, callee, st, temps);
    var q := p + ExprLen(e.left);
    var k := ExprRuns(alu, ch, e.right, names, q, callee, a.state, temps + [a.value]);
    Join(alu, ch, c, m, k);
    n := m + k;
    var b := Eval(alu, e.right, a.state);
    if b.Yields? {
      n := OperatorRuns(alu, ch, c, n, q + ExprLen(e.right), e.op, callee, b.state, temps, a.value, b.value);
    }
  }

  lemma {:induction false} ShortCircuitRuns(alu: Alu, ch: Chunk, e: Expr, names: seq<string>, p: nat, callee: Value,
                                            st: State, temps: seq<Value>, a: Evaluation, m: nat) returns (n: nat)
    requires (e.And? || e.Or?) && ExprAt(ch, e, names, p) && a == Eval(alu, e.left, st) && a.Yields?
    requires Agree(names, a.state.scope)
    requires StepN(alu, ch, At0(p, callee, st, temps), m) == After(a, p + ExprLen(e.left), callee, temps)
    ensures StepN(alu, ch, At0(p, callee, st, temps), n) == After(Eval(alu, e, st), p + ExprLen(e), callee, temps)
    decreases e.right, 2
  {
    hide StepN, Step, Execute, Fetch, At, Stack, Names, Resolve, ExprAt, ExprLen;
    if e.And? { AndIs(ch, e.left, e.right, names, p); } else { OrIs(ch, e.left, e.right, names, p); }
    var c := At0(p, callee, st, temps);
    var q := p + ExprLen(e.left);
    if e.And? {
      n := BranchRuns(alu, ch, c, m, q, 1 + ExprLen(e.right), callee, a.state, temps, a.value);
      q := q + 4;
    } else {
      TestRuns(alu, ch, c, m, q, 3, callee, a.state, temps, a.value);
      n := m + 1;
      if IsFalsey(a.value) {
        PopRuns(alu, ch, c, n, q + 6, callee, a.state, temps, a.value);
      } else {
        JumpRuns(alu, ch, c, n, q + 3, 1 + ExprLen(e.right), callee, a.state, temps + [a.value]);
      }
      n := n + 1;
      q := q + 7;
    }
    if IsFalsey(a.value) == e.Or? {
      var k := ExprRuns(alu, ch, e.right, names, q, callee, a.state, temps);
      Join(alu, ch, c, n, k);
      n := n + k;
    }
  }

  lemma {:induction false} TernaryRuns(alu: Alu, ch: Chunk, e: Expr, names: seq<string>, p: nat, callee: Value,
                                       st: State, temps: seq<Value>, a: Evaluation, m: nat) returns (n: nat)
    requires e.Ternary? && ExprAt(ch, e, names, p) && a == Eval(alu, e.cond, st) && a.Yields?
    requires Agree(names, a.state.scope)
    requires StepN(alu, ch, At0(p, callee, st, temps), m) == After(a, p + ExprLen(e.cond), callee, temps)
    ensures StepN(alu, ch, At0(p, callee, st, temps), n) == After(Eval(alu, e, st), p + ExprLen(e), callee, temps)
    decreases (if IsFalsey(a.value) then e.no else e.yes), 2
  {
    hide StepN, Step, Execute, Fetch, At, Stack, Names, Resolve, ExprAt, ExprLen;
    TernaryIs(ch, e.cond, e.yes, e.no, names, p);
    var c := At0(p, callee, st, temps);
    var q := p + ExprLen(e.cond);
    var j := q + 4 + ExprLen(e.yes);
    n := BranchRuns(alu, ch, c, m, q, 4 + ExprLen(e.yes), callee, a.state, temps, a.value);
    if IsFalsey(a.value) {
      PopRuns(alu, ch, c, n, j + 3, callee, a.state, temps, a.value);
      n := n + 1;
      var k := ExprRuns(alu, ch, e.no, names, j + 4, callee, a.state, temps);
      Join(alu, ch, c, n, k);
      n := n + k;
    } else {
      var k := ExprRuns(alu, ch, e.yes, names, q + 4, callee, a.state, temps);
      Join(alu, ch, c, n, k);
      n := SkipRuns(alu, ch, c, n + k, j, 1 + ExprLen(e.no), callee, Eval(alu, e.yes, a.state), temps);
    }
  }

  /** The jump over the alternative, if there is a value. */
  lemma SkipRuns(alu: Alu, ch: Chunk, c: Config, m: nat, q: nat, offset: nat, callee: Value, r: Evaluation,
                 temps: seq<Value>) returns (n: nat)
    requires StepN(alu, ch, c, m) == After(r, q, callee, temps) && At(ch.code, q, Jump(offset))
    ensures StepN(alu, ch, c, n) == After(r, q + 3 + offset, callee, temps)
  {
    hide StepN, Step, Execute, Fetch, At, Stack;
    n := m;
    if r.Yields? {
      JumpRuns(alu, ch, c, n, q, offset, callee, r.state, temps + [r.value]);
      n := n + 1;
    }
  }
}
