/** What a program means, stated over names and lexical scopes: no slots, no bytes, no jumps. */
module Semantics {
  import opened Options
  import opened Values
  import opened Language

  datatype Binding = Binding(name: string, value: Value)

  /** `scope` lists the variables in scope, innermost last; `globals` are the module's variables. */
  datatype State = State(scope: seq<Binding>, globals: map<string, Value>)

  datatype Evaluation = Yields(value: Value, state: State) | Fault(globals: map<string, Value>)

  datatype Flow = Normal | Broke | Continued

  /** How many values beyond the first a case label may have for the code to compare them right. */
  const LABEL_LIMIT := 256

  /** `Timeout` says only that the fuel ran out. `Wide` says that all values of a case label with too many of them
      have been evaluated, `further` of them after the first: what the program means from there on is not what the
      machine does. */
  datatype Outcome =
    | Done(flow: Flow, state: State)
    | Crash(globals: map<string, Value>)
    | Timeout
    | Wide(state: State, subject: Value, further: nat)

  /** The innermost variable called `name`, or -1. */
  function Innermost(scope: seq<Binding>, name: string): (i: int)
    ensures -1 <= i < |scope|
    ensures 0 <= i ==> scope[i].name == name
    ensures forall j :: i < j < |scope| ==> scope[j].name != name
  {
    if scope == [] then -1
    else if scope[|scope| - 1].name == name then |scope| - 1
    else Innermost(scope[..|scope| - 1], name)
  }

  function Eval(alu: Alu, e: Expr, st: State): Evaluation {
    match e
    case Literal(v) => Yields(v, st)
    case Variable(name) =>
      var i := Innermost(st.scope, name);
      if 0 <= i then Yields(st.scope[i].value, st)
      else if name in st.globals then Yields(st.globals[name], st)
      else Fault(st.globals)
    case Assign(name, rhs) =>
      (match Eval(alu, rhs, st)
       case Fault(g) => Fault(g)
       case Yields(v, st1) => Store(name, v, st1))
    case Not(e1) =>
      (match Eval(alu, e1, st)
       case Fault(g) => Fault(g)
       case Yields(v, st1) => Yields(Bool(IsFalsey(v)), st1))
    case Negate(e1) =>
      (match Eval(alu, e1, st)
       case Fault(g) => Fault(g)
       case Yields(v, st1) => Result(alu.negate(v), st1))
    case Binary(op, l, r) =>
      (match Eval(alu, l, st)
       case Fault(g) => Fault(g)
       case Yields(a, st1) =>
         match Eval(alu, r, st1)
         case Fault(g) => Fault(g)
         case Yields(b, st2) => Result(Apply(alu, op, a, b), st2))
    case And(l, r) =>
      (match Eval(alu, l, st)
       case Fault(g) => Fault(g)
       case Yields(a, st1) => if IsFalsey(a) then Yields(a, st1) else Eval(alu, r, st1))
    case Or(l, r) =>
      (match Eval(alu, l, st)
       case Fault(g) => Fault(g)
       case Yields(a, st1) => if IsFalsey(a) then Eval(alu, r, st1) else Yields(a, st1))
    case Ternary(c, yes, no) =>
      (match Eval(alu, c, st)
       case Fault(g) => Fault(g)
       case Yields(a, st1) => Eval(alu, if IsFalsey(a) then no else yes, st1))
  }

  function Result(v: Option<Value>, st: State): Evaluation {
    match v
    case None => Fault(st.globals)
    case Some(w) => Yields(w, st)
  }

  /** `a >= b` is the negation of `a < b`, and `a <= b` the negation of `a > b`. */
  function Apply(alu: Alu, op: BinaryOp, a: Value, b: Value): Option<Value> {
    match op
    case Equal => Some(Bool(a == b))
    case NotEqual => Some(Bool(a != b))
    case GreaterEqual => Complement(alu.binary(Less, a, b))
    case LessEqual => Complement(alu.binary(Greater, a, b))
    case Op(o) => alu.binary(o, a, b)
  }

  function Complement(v: Option<Value>): Option<Value> {
    match v
    case None => None
    case Some(w) => Some(Bool(IsFalsey(w)))
  }

  /** Assignment to the innermost variable; assigning an unknown module variable is a fault. */
  function Store(name: string, v: Value, st: State): Evaluation {
    var i := Innermost(st.scope, name);
    if 0 <= i then Yields(v, st.(scope := st.scope[i := Binding(name, v)]))
    else if name in st.globals then Yields(v, st.(globals := st.globals[name := v]))
    else Fault(st.globals)
  }

  function Exec(alu: Alu, s: Stmt, st: State, fuel: nat): Outcome
    decreases fuel, s, 1
  {
    match s
    case Evaluate(e) =>
      (match Eval(alu, e, st)
       case Fault(g) => Crash(g)
       case Yields(_, st1) => Done(Normal, st1))
    case Block(items) => Leave(ExecItems(alu, items, false, st, fuel), |st.scope|)
    case If(c, yes, no) =>
      (match Eval(alu, c, st)
       case Fault(g) => Crash(g)
       case Yields(v, st1) =>
         if !IsFalsey(v) then Exec(alu, yes, st1, fuel)
         else if no.Some? then Exec(alu, no.value, st1, fuel)
         else Done(Normal, st1))
    case While(test, body) => ExecLoop(alu, test, None, body, st, fuel)
    case For(init, test, step, body) =>
      (match ExecItems(alu, init, false, st, fuel)
       case Done(Normal, st1) => Leave(ExecLoop(alu, test, step, body, st1, fuel), |st.scope|)
       case other => Leave(other, |st.scope|))
    case Switch(subject, cases) =>
      (match Eval(alu, subject, st)
       case Fault(g) => Crash(g)
       case Yields(v, st1) => ExecCases(alu, v, cases, st1, fuel))
    case Break => Done(Broke, st)
    case Continue => Done(Continued, st)
  }

  /** Leaving a scope, by whatever route, forgets the variables declared in it. */
  function Leave(r: Outcome, size: nat): Outcome {
    match r
    case Done(flow, st) => Done(flow, Shrink(st, size))
    case other => other
  }

  function Shrink(st: State, size: nat): State {
    if size <= |st.scope| then st.(scope := st.scope[..size]) else st
  }

  /** At top level (`global`) a declaration makes a module variable. */
  function ExecItems(alu: Alu, items: Items, global: bool, st: State, fuel: nat): Outcome
    decreases fuel, items, 1
  {
    match items
    case NoItems => Done(Normal, st)
    case MoreItems(head, tail) =>
      match ExecItem(alu, head, global, st, fuel)
      case Done(Normal, st1) => ExecItems(alu, tail, global, st1, fuel)
      case other => other
  }

  function ExecItem(alu: Alu, item: Item, global: bool, st: State, fuel: nat): Outcome
    decreases fuel, item, 1
  {
    match item
    case Perform(s) => Exec(alu, s, st, fuel)
    case Declare(name, init, _) =>
      match (if init.Some? then Eval(alu, init.value, st) else Yields(Nil, st))
      case Fault(g) => Crash(g)
      case Yields(v, st1) =>
        if global then Done(Normal, st1.(globals := st1.globals[name := v]))
        else Done(Normal, st1.(scope := st1.scope + [Binding(name, v)]))
  }

  /** A loop without a test runs until it breaks. Fuel bounds how often an iteration may start. */
  function ExecLoop(alu: Alu, test: Option<Expr>, step: Option<Expr>, body: Stmt, st: State, fuel: nat): Outcome
    decreases fuel, body, 3
  {
    if fuel == 0 then Timeout else
    match (if test.Some? then Eval(alu, test.value, st) else Yields(Bool(true), st))
    case Fault(g) => Crash(g)
    case Yields(v, st1) => if IsFalsey(v) then Done(Normal, st1) else Iterate(alu, test, step, body, st1, fuel)
  }

  /** The body and what follows it: the step runs after every iteration that finishes normally
      or continues. */
  function Iterate(alu: Alu, test: Option<Expr>, step: Option<Expr>, body: Stmt, st: State, fuel: nat): Outcome
    requires fuel > 0
    decreases fuel, body, 2
  {
    match Exec(alu, body, st, fuel)
    case Done(Broke, st1) => Done(Normal, st1)
    case Crash(g) => Crash(g)
    case Timeout => Timeout
    case Wide(w, v, further) => Wide(w, v, further)
    case Done(_, st1) =>
      match (if step.Some? then Eval(alu, step.value, st1) else Yields(Nil, st1))
      case Fault(g) => Crash(g)
      case Yields(_, st2) => ExecLoop(alu, test, step, body, st2, fuel - 1)
  }

  /** The first case one of whose values equals the subject is taken; there is no fall-through. */
  function ExecCases(alu: Alu, v: Value, cases: Cases, st: State, fuel: nat): Outcome
    decreases fuel, cases, 1
  {
    match cases
    case Otherwise(default) => if default.Some? then Exec(alu, default.value, st, fuel) else Done(Normal, st)
    case MoreCases(first, more, body, rest) =>
      match EvalAny(alu, v, first, more, st)
      case Fault(g) => Crash(g)
      case Yields(hit, st1) =>
        if Count(more) >= LABEL_LIMIT then Wide(st1, v, Count(more))
        else if hit == Bool(true) then Exec(alu, body, st1, fuel)
        else ExecCases(alu, v, rest, st1, fuel)
  }

  /** Every value of a case is evaluated, left to right, before any comparison is made. */
  function EvalAny(alu: Alu, v: Value, first: Expr, more: Exprs, st: State): Evaluation
    decreases more
  {
    match Eval(alu, first, st)
    case Fault(g) => Fault(g)
    case Yields(a, st1) =>
      match more
      case NoExprs => Yields(Bool(a == v), st1)
      case MoreExprs(second, others) =>
        match EvalAny(alu, v, second, others, st1)
        case Fault(g) => Fault(g)
        case Yields(hit, st2) => Yields(Bool(a == v || hit == Bool(true)), st2)
  }
}
