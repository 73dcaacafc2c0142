/** How many values a case label may have. */
module CaseLabels {
  import opened Options
  import opened Values
  import opened Language
  import opened Semantics
  import opened Bytecode
  import opened Machine
  import opened Layout
  import opened Limits
  import opened ExprPreservation
  import opened Preservation

  // ---- which programs can meet a wide label ----

  /** Only a program with a label that is too wide can come to one. */
  lemma {:induction false} ExecWide(alu: Alu, s: Stmt, st: State, fuel: nat)
    ensures var r := Exec(alu, s, st, fuel); r.Wide? ==> !NarrowStmt(s) && r.further >= LABEL_LIMIT
    decreases fuel, s, 1
  {
    hide Eval;
    match s
    case Evaluate(_) | Break | Continue =>
    case Block(items) => ItemsWide(alu, items, false, st, fuel);
    case If(c, yes, no) =>
      var v := Eval(alu, c, st);
      if v.Yields? {
        ExecWide(alu, yes, v.state, fuel);
        if no.Some? { ExecWide(alu, no.value, v.state, fuel); }
      }
    case While(test, body) => LoopWide(alu, test, None, body, st, fuel);
    case For(init, test, step, body) =>
      ItemsWide(alu, init, false, st, fuel);
      var r := ExecItems(alu, init, false, st, fuel);
      if r.Done? && r.flow.Normal? { LoopWide(alu, test, step, body, r.state, fuel); }
    case Switch(subject, cases) =>
      var v := Eval(alu, subject, st);
      if v.Yields? { CasesWide(alu, v.value, cases, v.state, fuel); }
  }

  lemma {:induction false} CasesWide(alu: Alu, v: Value, cases: Cases, st: State, fuel: nat)
    ensures var r := ExecCases(alu, v, cases, st, fuel); r.Wide? ==> !NarrowCases(cases) && r.further >= LABEL_LIMIT
    decreases fuel, cases, 1
  {
    hide Eval, EvalAny;
    match cases
    case Otherwise(default) => if default.Some? { ExecWide(alu, default.value, st, fuel); }
    case MoreCases(first, more, body, rest) =>
      var hit := EvalAny(alu, v, first, more, st);
      if hit.Yields? {
        ExecWide(alu, body, hit.state, fuel);
        CasesWide(alu, v, rest, hit.state, fuel);
      }
  }

  lemma {:induction false} LoopWide(alu: Alu, test: Option<Expr>, step: Option<Expr>, body: Stmt, st: State, fuel: nat)
    ensures var r := ExecLoop(alu, test, step, body, st, fuel); r.Wide? ==> !NarrowStmt(body) && r.further >= LABEL_LIMIT
    decreases fuel, body, 2
  {
    hide Eval;
    if fuel > 0 {
      var v := if test.Some? then Eval(alu, test.value, st) else Yields(Bool(true), st);
      if v.Yields? && !IsFalsey(v.value) {
        ExecWide(alu, body, v.state, fuel);
        var r := Exec(alu, body, v.state, fuel);
        if r.Done? && !r.flow.Broke? {
          var w := if step.Some? then Eval(alu, step.value, r.state) else Yields(Nil, r.state);
          if w.Yields? { LoopWide(alu, test, step, body, w.state, fuel - 1); }
        }
      }
    }
  }

  lemma {:induction false} ItemsWide(alu: Alu, items: Items, global: bool, st: State, fuel: nat)
    ensures var r := ExecItems(alu, items, global, st, fuel); r.Wide? ==> !NarrowItems(items) && r.further >= LABEL_LIMIT
    decreases fuel, items, 1
  {
    hide Eval;
    match items
    case NoItems =>
    case MoreItems(head, tail) =>
      if head.Perform? { ExecWide(alu, head.s, st, fuel); }
      var r := ExecItem(alu, head, global, st, fuel);
      if r.Done? && r.flow.Normal? { ItemsWide(alu, tail, global, r.state, fuel); }
  }

  // ---- a label that is too wide ----

  /** `nil` written `n` times. */
  function Nils(n: nat): Exprs {
    if n == 0 then NoExprs else MoreExprs(Literal(Nil), Nils(n - 1))
  }

  lemma {:induction false} NilsYield(alu: Alu, v: Value, n: nat, st: State)
    ensures Count(Nils(n)) == n
    ensures EvalAny(alu, v, Literal(Nil), Nils(n), st).Yields? && EvalAny(alu, v, Literal(Nil), Nils(n), st).state == st
  {
    if n > 0 { NilsYield(alu, v, n - 1, st); }
  }

  // ---- what a switch with one label comes to ----

  /** `switch (subject) { case first, more...: e; }` */
  function OneLabel(subject: Expr, first: Expr, more: Exprs, e: Expr): Stmt {
    Switch(subject, MoreCases(first, more, Evaluate(e), Otherwise(None)))
  }

  /** The comparison at the end of a label, with `junk` left below: the body is run on a hit, and either way one value
      is popped for each that the code knows of. */
  lemma LabelEnds(alu: Alu, ch: Chunk, c: Config, m: nat, cases: Cases, names: seq<string>, t: Target, p: nat,
                  callee: Value, st: State, junk: seq<Value>, v: Value, w: Value) returns (n: nat)
    requires cases.MoreCases? && cases.body.Evaluate? && cases.rest == Otherwise(None) && Agree(names, st.scope)
    requires CasesAt(ch, cases, names, t, p, p + CasesLen(cases, Extra(names, t))) && Eval(alu, cases.body.e, st).Yields?
    requires StepN(alu, ch, c, m) ==
             At0(p + ExprLen(cases.first) + ExprsLen(cases.more) + MultiLen(cases.more), callee, st, junk + [v] + [w])
    ensures StepN(alu, ch, c, n) ==
            At0(p + CasesLen(cases, Extra(names, t)), callee, if w == v then Eval(alu, cases.body.e, st).state else st, junk)
  {
    hide StepN, Step, Stack, At, ExprAt, ExprsAt, Eval, ExprLen, ExprsLen;
    var e := cases.body.e;
    var j := p + ExprLen(cases.first) + ExprsLen(cases.more) + MultiLen(cases.more);
    var q := j + 3 + ExprLen(e) + 1;
    CompareRuns(alu, ch, c, m, j, q + 3 - (j + 3), callee, st, junk, v, w);
    n := m + 1;
    if w == v {
      var k := ExprRuns(alu, ch, e, names, j + 3, callee, st, junk);
      Join(alu, ch, c, n, k);
      n := n + k;
      var r := Eval(alu, e, st);
      PopRuns(alu, ch, c, n, q - 1, callee, r.state, junk, r.value);
      JumpRuns(alu, ch, c, n + 1, q, 1, callee, r.state, junk);
      n := n + 2;
    } else {
      PopRuns(alu, ch, c, n, q + 3, callee, st, junk, v);
      n := n + 1;
    }
  }

  /** However many values the label has: after the switch there are 256 values too many for every 256 values the
      count byte lost. So the switch leaves the stack as it was if and only if the label has at most 256 values. */
  lemma OneLabelRuns(alu: Alu, ch: Chunk, subject: Expr, first: Expr, more: Exprs, e: Expr, names: seq<string>, t: Target,
                     p: nat, callee: Value, st: State) returns (n: nat, junk: seq<Value>, end: State)
    requires StmtAt(ch, OneLabel(subject, first, more, e), names, t, p) && Agree(names, st.scope)
    requires var s := Eval(alu, subject, st);
             && s.Yields?
             && var r := EvalAny(alu, s.value, first, more, s.state);
                r.Yields? && Eval(alu, e, r.state).Yields?
    ensures var s := Eval(alu, subject, st);
            var r := EvalAny(alu, s.value, first, more, s.state);
            end == r.state || end == Eval(alu, e, r.state).state
    ensures |junk| == Count(more) / 256 * 256
    ensures StepN(alu, ch, At0(p, callee, st, []), n) ==
            At0(p + StmtLen(OneLabel(subject, first, more, e), Extra(names, t)), callee, end, junk)
  {
    hide StepN, Step, Stack, At, ExprAt, ExprsAt, Eval, EvalAny, ExprLen, ExprsLen, Pick;
    var c := At0(p, callee, st, []);
    n := ExprRuns(alu, ch, subject, names, p, callee, st, []);
    EvalAgrees(alu, subject, names, st);
    var s := Eval(alu, subject, st);
    assert [] + [s.value] == [s.value];
    var q := p + ExprLen(subject);
    var k, x, w;
    k, junk, x, w := LabelRuns(alu, ch, s.value, first, more, names, q, callee, s.state);
    AnyAgrees(alu, s.value, first, more, names, s.state);
    Join(alu, ch, c, n, k);
    var r := EvalAny(alu, s.value, first, more, s.state);
    n := LabelEnds(alu, ch, c, n + k, MoreCases(first, more, Evaluate(e), Otherwise(None)), names, t, q, callee, r.state,
                   junk, x, w);
    end := if w == x then Eval(alu, e, r.state).state else r.state;
  }

  // ---- a program that is accepted and leaves the stack too high ----

  /** `switch (true) { case nil, nil, ...: nil; }` with `n + 1` values. */
  function Labelled(n: nat): Items {
    MoreItems(Perform(OneLabel(Literal(Bool(true)), Literal(Nil), Nils(n), Literal(Nil))), NoItems)
  }

  lemma {:induction false} NilsChecked(n: nat, locals: seq<Local>, pool: Pool)
    ensures CheckExprs(Nils(n), locals, pool) == Some(pool)
  {
    if n > 0 { NilsChecked(n - 1, locals, pool); }
  }

  /** The compiler accepts it for every `n`. */
  lemma LabelledAccepted(n: nat)
    ensures CheckItems(Labelled(n), [Local("", 0, false)], 0, NoLoop, 0, Pool([], map[], {})) == Some(Pool([], map[], {}))
  {
    var locals, pool := [Local("", 0, false)], Pool([], map[], {});
    NilsChecked(n, locals, pool);
    var cases := MoreCases(Literal(Nil), Nils(n), Evaluate(Literal(Nil)), Otherwise(None));
    assert forall p: nat :: CheckStmt(Evaluate(Literal(Nil)), locals, 0, NoLoop, p, pool) == Some(pool);
    assert StmtLen(Evaluate(Literal(Nil)), 0) == 2 && CasesLen(Otherwise(None), 0) == 1;
    assert forall p: nat :: CheckCases(Otherwise(None), 1, locals, 0, NoLoop, p, pool) == Some(pool);
    assert CheckCases(cases, 0, locals, 0, NoLoop, 1, pool) == Some(pool);
    assert CheckStmt(Switch(Literal(Bool(true)), cases), locals, 0, NoLoop, 0, pool) == Some(pool);
  }

  lemma LabelledMeans(alu: Alu, n: nat, g0: map<string, Value>, fuel: nat)
    ensures ExecItems(alu, Labelled(n), true, State([], g0), fuel) ==
            if n < 256 then Done(Normal, State([], g0)) else Wide(State([], g0), Bool(true), n)
  {
    var st := State([], g0);
    NilsYield(alu, Bool(true), n, st);
    var cases := MoreCases(Literal(Nil), Nils(n), Evaluate(Literal(Nil)), Otherwise(None));
    assert Exec(alu, Evaluate(Literal(Nil)), st, fuel) == Done(Normal, st);
    assert ExecCases(alu, Bool(true), Otherwise(None), st, fuel) == Done(Normal, st);
    var r := ExecCases(alu, Bool(true), cases, st, fuel);
    assert r == if n < 256 then Done(Normal, st) else Wide(st, Bool(true), n);
    assert Exec(alu, Switch(Literal(Bool(true)), cases), st, fuel) == r;
    assert ExecItems(alu, NoItems, true, st, fuel) == Done(Normal, st);
  }

  /** Run to its end, it leaves 256 values on the stack for every 256 values that the count byte lost. */
  lemma LabelledHalts(alu: Alu, ch: Chunk, n: nat, callee: Value, g0: map<string, Value>) returns (k: nat)
    requires ProgramAt(ch, Labelled(n))
    ensures var c := StepN(alu, ch, Running(0, [callee], g0), k);
            c.Halted? && c.globals == g0 && |c.stack| == n / 256 * 256
  {
    hide StepN, Step, Fetch, At;
    var st := State([], g0);
    var c := Running(0, [callee], g0);
    NilsYield(alu, Bool(true), n, st);
    var junk, end;
    assert c == At0(0, callee, st, []);
    var s := OneLabel(Literal(Bool(true)), Literal(Nil), Nils(n), Literal(Nil));
    assert ItemAt(ch, Perform(s), true, [], NoLoop, 0);
    assert ItemsLen(NoItems, true, 0) == 0 && ItemLen(Perform(s), true, 0) == StmtLen(s, 0);
    k, junk, end := OneLabelRuns(alu, ch, Literal(Bool(true)), Literal(Nil), Nils(n), Literal(Nil), [], NoLoop, 0, callee, st);
    OneMore(alu, ch, c, k, PushNil);
    OneMore(alu, ch, c, k + 1, Return);
    k := k + 2;
  }
}
