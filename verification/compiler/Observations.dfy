/** What short programs come to on the machine, for every value and operator in them. */
module Observations {
  import opened Options
  import opened Values
  import opened Language
  import opened Semantics
  import opened Bytecode
  import opened Layout
  import opened Machine
  import opened Interpreter

  /** A condition takes the falsey way for nil, false, both zeros, the empty string and a string that begins with NUL, and
      for nothing else. */
  lemma ConditionsAre(alu: Alu, v: Value, e: Expr, f: Expr, yes: Stmt, no: Option<Stmt>, st: State, fuel: nat)
    requires fuel > 0
    ensures var falsey := v in {Nil, Bool(false), Number(0), Number(0x8000_0000_0000_0000), Str("")}
                          || (v.Str? && v.chars != "" && v.chars[0] == '\0');
            && Eval(alu, Not(Literal(v)), st) == Yields(Bool(falsey), st)
            && Eval(alu, And(Literal(v), e), st) == (if falsey then Yields(v, st) else Eval(alu, e, st))
            && Eval(alu, Or(Literal(v), e), st) == (if falsey then Eval(alu, e, st) else Yields(v, st))
            && Eval(alu, Ternary(Literal(v), e, f), st) == Eval(alu, if falsey then f else e, st)
            && Exec(alu, If(Literal(v), yes, no), st, fuel) ==
               (if !falsey then Exec(alu, yes, st, fuel) else if no.Some? then Exec(alu, no.value, st, fuel) else Done(Normal, st))
            && Exec(alu, While(Some(Literal(v)), yes), st, fuel) ==
               (if falsey then Done(Normal, st) else Exec(alu, While(None, yes), st, fuel))
  {
    if !IsFalsey(v) { LoopsForEver(alu, v, None, yes, st, fuel); }
  }

  /** A test that always holds is none. */
  lemma {:induction false} LoopsForEver(alu: Alu, v: Value, step: Option<Expr>, body: Stmt, st: State, fuel: nat)
    requires !IsFalsey(v)
    ensures ExecLoop(alu, Some(Literal(v)), step, body, st, fuel) == ExecLoop(alu, None, step, body, st, fuel)
    decreases fuel
  {
    if fuel > 0 {
      match Exec(alu, body, st, fuel)
      case Done(flow, st1) =>
        var after := if step.Some? then Eval(alu, step.value, st1) else Yields(Nil, st1);
        if flow != Broke && after.Yields? { LoopsForEver(alu, v, step, body, after.state, fuel - 1); }
      case _ =>
    }
  }

  // ---- scopes, switches and loops ----

  function Let(name: Name, v: Value): Item {
    Declare(name, Some(Literal(v)), false)
  }

  function Then(item: Item, next: Item): Items {
    MoreItems(item, MoreItems(next, NoItems))
  }

  function Extended(st: State, name: string, v: Value): State {
    st.(scope := st.scope + [Binding(name, v)])
  }

  lemma ThenMeans(alu: Alu, item: Item, next: Item, st: State, st1: State, fuel: nat)
    requires ExecItem(alu, item, false, st, fuel) == Done(Normal, st1)
    ensures ExecItems(alu, Then(item, next), false, st, fuel) == ExecItem(alu, next, false, st1, fuel)
  {
    hide ExecItem;
    OneItem(alu, next, false, st1, fuel);
  }

  lemma LetMeans(alu: Alu, name: Name, v: Value, st: State, fuel: nat)
    ensures ExecItem(alu, Let(name, v), false, st, fuel) == Done(Normal, Extended(st, name, v))
  {
  }

  lemma SetMeans(alu: Alu, name: Name, e: Expr, st: State, fuel: nat)
    ensures ExecItem(alu, Perform(Evaluate(Assign(name, e))), false, st, fuel) ==
      match Eval(alu, Assign(name, e), st) case Fault(g) => Crash(g) case Yields(_, st1) => Done(Normal, st1)
  {
  }

  lemma InnermostIs(scope: seq<Binding>, b: Binding, x: Name, y: Name)
    requires b.name == x && x != y && Innermost(scope, y) < 0
    ensures Innermost(scope + [b], x) == |scope| && Innermost(scope + [b], y) < 0
  {
    assert (scope + [b])[..|scope|] == scope;
  }

  /** With `y` a module variable: `{ var x = w; y = x; }` stores `w`, whatever `x` is outside. */
  lemma InnerIs(alu: Alu, s: Stmt, x: Name, y: Name, w: Value, st: State, fuel: nat)
    requires x != y && y in st.globals && Innermost(st.scope, y) < 0
    requires s == Block(Then(Let(x, w), Perform(Evaluate(Assign(y, Variable(x))))))
    ensures Exec(alu, s, st, fuel) == Done(Normal, st.(globals := st.globals[y := w]))
  {
    hide ExecItems, ExecItem;
    var inner := Extended(st, x, w);
    LetMeans(alu, x, w, st, fuel);
    ThenMeans(alu, Let(x, w), Perform(Evaluate(Assign(y, Variable(x)))), st, inner, fuel);
    SetMeans(alu, y, Variable(x), inner, fuel);
    InnermostIs(st.scope, Binding(x, w), x, y);
    assert inner.scope[..|st.scope|] == st.scope;
  }

  /** And in `{ var x = v; { var x = w; x = u; } y = x; }` the inner variable is assigned: `v` is stored. */
  lemma OuterIs(alu: Alu, s: Stmt, inner: Stmt, x: Name, y: Name, v: Value, w: Value, u: Value, st: State, fuel: nat)
    requires x != y && y in st.globals && Innermost(st.scope, y) < 0
    requires inner == Block(Then(Let(x, w), Perform(Evaluate(Assign(x, Literal(u))))))
    requires s == Block(MoreItems(Let(x, v), Then(Perform(inner), Perform(Evaluate(Assign(y, Variable(x)))))))
    ensures Exec(alu, s, st, fuel) == Done(Normal, st.(globals := st.globals[y := v]))
  {
    hide ExecItems, ExecItem;
    var outer := Extended(st, x, v);
    LetMeans(alu, x, v, st, fuel);
    ShadowIs(alu, inner, x, y, w, u, outer, fuel);
    InnermostIs(st.scope, Binding(x, v), x, y);
    assert ExecItem(alu, Perform(inner), false, outer, fuel) == Exec(alu, inner, outer, fuel) by { PerformIs(alu, inner, outer, fuel); }
    ThenMeans(alu, Perform(inner), Perform(Evaluate(Assign(y, Variable(x)))), outer, outer, fuel);
    SetMeans(alu, y, Variable(x), outer, fuel);
    FirstIs(alu, Let(x, v), s.items.tail, st, outer, fuel);
    assert outer.scope[..|st.scope|] == st.scope;
  }

  lemma PerformIs(alu: Alu, s: Stmt, st: State, fuel: nat)
    ensures ExecItem(alu, Perform(s), false, st, fuel) == Exec(alu, s, st, fuel)
  {
  }

  lemma FirstIs(alu: Alu, item: Item, rest: Items, st: State, st1: State, fuel: nat)
    requires ExecItem(alu, item, false, st, fuel) == Done(Normal, st1)
    ensures ExecItems(alu, MoreItems(item, rest), false, st, fuel) == ExecItems(alu, rest, false, st1, fuel)
  {
    hide ExecItem;
  }

  lemma ShadowIs(alu: Alu, s: Stmt, x: Name, y: Name, w: Value, u: Value, st: State, fuel: nat)
    requires x != y && s == Block(Then(Let(x, w), Perform(Evaluate(Assign(x, Literal(u))))))
    ensures Exec(alu, s, st, fuel) == Done(Normal, st)
  {
    hide ExecItems, ExecItem;
    var inner := Extended(st, x, w);
    LetMeans(alu, x, w, st, fuel);
    ThenMeans(alu, Let(x, w), Perform(Evaluate(Assign(x, Literal(u)))), st, inner, fuel);
    SetMeans(alu, x, Literal(u), inner, fuel);
    assert Innermost(inner.scope, x) == |st.scope|;
    assert inner.scope[|st.scope| := Binding(x, u)][..|st.scope|] == st.scope;
  }

  /** The first case with the subject's value is executed, else the default, and nothing else. */
  lemma SwitchIs(alu: Alu, s: Stmt, cases: Cases, v: Value, a: Value, b: Value, c: Value, one: Stmt, two: Stmt, other: Stmt,
      st: State, fuel: nat)
    requires s == Switch(Literal(v), cases) && cases.MoreCases? && cases.body == one
    requires cases.first == Literal(a) && cases.more == MoreExprs(Literal(b), NoExprs)
    requires cases.rest == MoreCases(Literal(c), NoExprs, two, Otherwise(Some(other)))
    ensures Exec(alu, s, st, fuel) == Exec(alu, if v == a || v == b then one else if v == c then two else other, st, fuel)
  {
    TwoValues(alu, v, a, b, st);
    assert ExecCases(alu, v, cases.rest, st, fuel) == Exec(alu, if v == c then two else other, st, fuel) by {
      LastCase(alu, cases.rest, v, c, two, other, st, fuel);
    }
    FirstCase(alu, cases, v, a, b, st, fuel);
  }

  lemma TwoValues(alu: Alu, v: Value, a: Value, b: Value, st: State)
    ensures EvalAny(alu, v, Literal(a), MoreExprs(Literal(b), NoExprs), st) == Yields(Bool(v == a || v == b), st)
  {
  }

  lemma LastCase(alu: Alu, cases: Cases, v: Value, c: Value, two: Stmt, other: Stmt, st: State, fuel: nat)
    requires cases == MoreCases(Literal(c), NoExprs, two, Otherwise(Some(other)))
    ensures ExecCases(alu, v, cases, st, fuel) == Exec(alu, if v == c then two else other, st, fuel)
  {
    hide Exec;
  }

  lemma FirstCase(alu: Alu, cases: Cases, v: Value, a: Value, b: Value, st: State, fuel: nat)
    requires cases.MoreCases? && cases.first == Literal(a) && cases.more == MoreExprs(Literal(b), NoExprs)
    requires EvalAny(alu, v, Literal(a), MoreExprs(Literal(b), NoExprs), st) == Yields(Bool(v == a || v == b), st)
    ensures ExecCases(alu, v, cases, st, fuel)
            == if v == a || v == b then Exec(alu, cases.body, st, fuel) else ExecCases(alu, v, cases.rest, st, fuel)
  {
    hide Exec, EvalAny;
    assert Count(MoreExprs(Literal(b), NoExprs)) == 1;
  }

  /** One round of a `for` whose test holds: the body, then the step, then the test again; `break` leaves the step out,
      `continue` does not. */
  lemma ForIs(alu: Alu, test: Option<Expr>, step: Option<Expr>, e: Expr, body: Stmt, st: State, fuel: nat)
    requires fuel > 0 && test == Some(Literal(Bool(true))) && step == Some(e)
    ensures body == Break ==> ExecLoop(alu, test, step, body, st, fuel) == Done(Normal, st)
    ensures body == Continue ==>
      ExecLoop(alu, test, step, body, st, fuel) ==
      match Eval(alu, e, st) case Fault(g) => Crash(g) case Yields(_, st1) => ExecLoop(alu, test, step, body, st1, fuel - 1)
  {
    assert Eval(alu, Literal(Bool(true)), st) == Yields(Bool(true), st);
    assert body == Break || body == Continue ==>
      Exec(alu, body, st, fuel) == Done(if body == Break then Broke else Continued, st);
  }

  /** `var a = first; if (v) { a = second; }`: the machine halts with the one or the other. */
  lemma IfHalts(alu: Alu, ch: Chunk, first: Value, v: Value, second: Value, callee: Value, g0: map<string, Value>,
      g: map<string, Value>)
    requires ProgramAt(ch, MoreItems(Declare("a", Some(Literal(first)), false),
               MoreItems(Perform(If(Literal(v), Block(MoreItems(Perform(Evaluate(Assign("a", Literal(second)))), NoItems)), None)), NoItems)))
    ensures var falsey := v in {Nil, Bool(false), Number(0), Number(0x8000_0000_0000_0000), Str("")}
                          || (v.Str? && v.chars != "" && v.chars[0] == '\0');
            (exists n: nat :: StepN(alu, ch, Running(0, [callee], g0), n) == Halted([], g))
            <==> g == g0["a" := if falsey then first else second]
  {
    hide StepN, Step, ProgramAt, ExecItems;
    var program := MoreItems(Declare("a", Some(Literal(first)), false),
      MoreItems(Perform(If(Literal(v), Block(MoreItems(Perform(Evaluate(Assign("a", Literal(second)))), NoItems)), None)), NoItems));
    HaltsIffTerminates(alu, ch, program, callee, g0, g);
    forall fuel: nat
      ensures ExecItems(alu, program, true, State([], g0), fuel) == Done(Normal, State([], g0["a" := if IsFalsey(v) then first else second]))
    {
      IfMeans(alu, first, v, second, g0, fuel);
    }
    assert ExecItems(alu, program, true, State([], g0), 0).Done?;
  }

  lemma IfMeans(alu: Alu, first: Value, v: Value, second: Value, g0: map<string, Value>, fuel: nat)
    ensures ExecItems(alu, MoreItems(Declare("a", Some(Literal(first)), false),
              MoreItems(Perform(If(Literal(v), Block(MoreItems(Perform(Evaluate(Assign("a", Literal(second)))), NoItems)), None)), NoItems)),
              true, State([], g0), fuel) == Done(Normal, State([], g0["a" := if IsFalsey(v) then first else second]))
  {
    var st := State([], g0["a" := first]);
    var s: Stmt := Block(MoreItems(Perform(Evaluate(Assign("a", Literal(second)))), NoItems));
    assert Eval(alu, Assign("a", Literal(second)), st) == Yields(second, State([], g0["a" := second])) by {
      assert g0["a" := first]["a" := second] == g0["a" := second];
    }
    BlockOfOne(alu, Evaluate(Assign("a", Literal(second))), st, fuel);
    assert Exec(alu, s, st, fuel) == Done(Normal, State([], g0["a" := second]));
    OneItem(alu, Perform(If(Literal(v), s, None)), true, st, fuel);
  }

  lemma OneItem(alu: Alu, item: Item, global: bool, st: State, fuel: nat)
    ensures ExecItems(alu, MoreItems(item, NoItems), global, st, fuel) == ExecItem(alu, item, global, st, fuel)
  {
  }

  lemma BlockOfOne(alu: Alu, s: Stmt, st: State, fuel: nat)
    ensures Exec(alu, Block(MoreItems(Perform(s), NoItems)), st, fuel) == Leave(Exec(alu, s, st, fuel), |st.scope|)
  {
    OneItem(alu, Perform(s), false, st, fuel);
  }

  /** What an operator gives for two values; `>=` and `<=` come down to `<` and `>`. */
  function Operated(alu: Alu, op: BinaryOp, a: Value, b: Value): Option<Value> {
    match op
    case Equal => Some(Bool(a == b))
    case NotEqual => Some(Bool(a != b))
    case GreaterEqual => Flipped(alu.binary(Less, a, b))
    case LessEqual => Flipped(alu.binary(Greater, a, b))
    case Op(o) => alu.binary(o, a, b)
  }

  function Flipped(v: Option<Value>): Option<Value> {
    if v.None? then None
    else Some(Bool(v.value in {Nil, Bool(false), Number(0), Number(0x8000_0000_0000_0000), Str("")}
                   || (v.value.Str? && v.value.chars != "" && v.value.chars[0] == '\0')))
  }

  /** `var r = a op b;`: the machine halts with the result, or fails if there is none. */
  lemma OperatorHalts(alu: Alu, ch: Chunk, op: BinaryOp, a: Value, b: Value, callee: Value, g0: map<string, Value>,
      g: map<string, Value>)
    requires ProgramAt(ch, MoreItems(Declare("r", Some(Binary(op, Literal(a), Literal(b))), false), NoItems))
    ensures (exists n: nat :: StepN(alu, ch, Running(0, [callee], g0), n) == Halted([], g))
            <==> Operated(alu, op, a, b).Some? && g == g0["r" := Operated(alu, op, a, b).value]
    ensures (exists n: nat :: StepN(alu, ch, Running(0, [callee], g0), n) == Faulted(g))
            <==> Operated(alu, op, a, b).None? && g == g0
  {
    hide StepN, Step, ProgramAt, ExecItems;
    var program := MoreItems(Declare("r", Some(Binary(op, Literal(a), Literal(b))), false), NoItems);
    HaltsIffTerminates(alu, ch, program, callee, g0, g);
    FaultsIffCrashes(alu, ch, program, callee, g0, g);
    NarrowMeetsNone(alu, program, g0);
    OperatorMeans(alu, op, a, b, g0, 0);
    if fuel: nat :| ExecItems(alu, program, true, State([], g0), fuel) == Done(Normal, State([], g)) {
      OperatorMeans(alu, op, a, b, g0, fuel);
    }
    if fuel: nat :| ExecItems(alu, program, true, State([], g0), fuel) == Crash(g) {
      OperatorMeans(alu, op, a, b, g0, fuel);
    }
  }

  lemma OperatorMeans(alu: Alu, op: BinaryOp, a: Value, b: Value, g0: map<string, Value>, fuel: nat)
    ensures ExecItems(alu, MoreItems(Declare("r", Some(Binary(op, Literal(a), Literal(b))), false), NoItems), true, State([], g0), fuel)
         == match Operated(alu, op, a, b) case None => Crash(g0) case Some(v) => Done(Normal, State([], g0["r" := v]))
  {
    OneItem(alu, Declare("r", Some(Binary(op, Literal(a), Literal(b))), false), true, State([], g0), fuel);
    assert Apply(alu, op, a, b) == Operated(alu, op, a, b);
    assert Eval(alu, Binary(op, Literal(a), Literal(b)), State([], g0)) == Result(Operated(alu, op, a, b), State([], g0));
  }
}
