/** A run that comes to a case label of more than 256 values never gets rid of the values that are then too many. */
module WideRuns {
  import opened Options
  import opened Values
  import opened Language
  import opened Semantics
  import opened Bytecode
  import opened Machine
  import opened Layout
  import opened ExprPreservation
  import opened Preservation
  import opened StackHeight

  /** The fewest values that are too many once a label was too wide. */
  const EXTRA := 256

  /** The machine where the semantics says it is, as the start of a run that is good. */
  lemma GoodFrom(s: Setting, c: Config, n: nat, q: nat, callee: Value, st: State, temps: seq<Value>, limit: nat)
    requires StepN(s.alu, s.ch, c, n) == At0(q, callee, st, temps) && Good(s, At0(q, callee, st, temps), limit)
    ensures Good(s, c, limit)
  {
    hide Good;
    GoodBefore(s, c, n, limit);
  }

  lemma {:induction false} StmtStrays(s: Setting, b: Stmt, names: seq<string>, t: Target, p: nat, callee: Value, st: State,
                                      fuel: nat, limit: nat)
    requires StmtAt(s.ch, b, names, t, p) && Agree(names, st.scope) && Ready(t, names)
    requires Leaves(s, t, Base(t) + 1 + EXTRA, limit)
    requires Continues(s, p + StmtLen(b, Extra(names, t)), |names| + 1 + EXTRA, limit)
    ensures Exec(s.alu, b, st, fuel).Wide? ==> Good(s, At0(p, callee, st, []), limit)
    decreases fuel, b, 2
  {
    hide StepN, Step, Stack, At, ExprAt, Eval, Good, Continues, Leaves, PopsAt, ItemsAt, CasesAt, WhileAt, ForAt;
    var c := At0(p, callee, st, []);
    match b
    case Evaluate(_) | Break | Continue =>
    case Block(items) =>
      Pops(s, p + ItemsLen(items, false, Extra(names, t)), Declared(items), |names| + 1 + EXTRA, limit);
      ItemsStray(s, items, false, names, t, p, callee, st, fuel, limit);
    case If(_, _, _) => IfStrays(s, b, names, t, p, callee, st, fuel, limit);
    case While(test, body) => WhileStrays(s, test, body, names, p, callee, st, fuel, limit);
    case For(_, _, _, _) => ForStatementStrays(s, b, names, t, p, callee, st, fuel, limit);
    case Switch(subject, cases) =>
      var n := ExprRuns(s.alu, s.ch, subject, names, p, callee, st, []);
      EvalAgrees(s.alu, subject, names, st);
      var a := Eval(s.alu, subject, st);
      if a.Yields? && ExecCases(s.alu, a.value, cases, a.state, fuel).Wide? {
        assert [] + [a.value] == [a.value];
        CasesStray(s, a.value, cases, names, t, p + ExprLen(subject), callee, a.state, fuel, limit);
        GoodFrom(s, c, n, p + ExprLen(subject), callee, a.state, [a.value], limit);
      }
  }

  lemma {:induction false} IfStrays(s: Setting, b: Stmt, names: seq<string>, t: Target, p: nat, callee: Value, st: State,
                                    fuel: nat, limit: nat)
    requires b.If? && StmtAt(s.ch, b, names, t, p) && Agree(names, st.scope) && Ready(t, names)
    requires Leaves(s, t, Base(t) + 1 + EXTRA, limit)
    requires Continues(s, p + StmtLen(b, Extra(names, t)), |names| + 1 + EXTRA, limit)
    ensures Exec(s.alu, b, st, fuel).Wide? ==> Good(s, At0(p, callee, st, []), limit)
    decreases fuel, b, 1
  {
    hide StepN, Step, Stack, At, ExprAt, Eval, Good, Continues, Leaves;
    var c := At0(p, callee, st, []);
    var q := p + ExprLen(b.cond);
    var m := q + 4 + StmtLen(b.yes, Extra(names, t));
    var n := ExprRuns(s.alu, s.ch, b.cond, names, p, callee, st, []);
    EvalAgrees(s.alu, b.cond, names, st);
    var a := Eval(s.alu, b.cond, st);
    if a.Yields? && Exec(s.alu, b, st, fuel).Wide? {
      assert [] + [a.value] == [a.value];
      n := BranchRuns(s.alu, s.ch, c, n, q, m + 3 - (q + 3), callee, a.state, [], a.value);
      if IsFalsey(a.value) {
        PopRuns(s.alu, s.ch, c, n, m + 3, callee, a.state, [], a.value);
        StmtStrays(s, b.no.value, names, t, m + 4, callee, a.state, fuel, limit);
        GoodFrom(s, c, n + 1, m + 4, callee, a.state, [], limit);
      } else {
        Jumps(s, 1 + if b.no.Some? then StmtLen(b.no.value, Extra(names, t)) else 0, m, |names| + 1 + EXTRA, limit);
        StmtStrays(s, b.yes, names, t, q + 4, callee, a.state, fuel, limit);
        GoodFrom(s, c, n, q + 4, callee, a.state, [], limit);
      }
    }
  }

  // ---- switch ----

  lemma {:induction false} CasesStray(s: Setting, v: Value, cases: Cases, names: seq<string>, t: Target, p: nat,
                                      callee: Value, st: State, fuel: nat, limit: nat)
    requires CasesAt(s.ch, cases, names, t, p, p + CasesLen(cases, Extra(names, t)))
    requires Agree(names, st.scope) && Ready(t, names) && Leaves(s, t, Base(t) + 1 + EXTRA, limit)
    requires Continues(s, p + CasesLen(cases, Extra(names, t)), |names| + 1 + EXTRA, limit)
    ensures ExecCases(s.alu, v, cases, st, fuel).Wide? ==> Good(s, At0(p, callee, st, [v]), limit)
    decreases fuel, cases, 1
  {
    hide StepN, Step, Stack, At, ExprAt, ExprsAt, StmtAt, Good, Continues, Leaves, EvalAny, StmtLen, ExprLen;
    var c := At0(p, callee, st, [v]);
    match cases
    case Otherwise(default) =>
      if default.Some? {
        ZeroSteps(s.alu, s.ch, c);
        assert [] + [v] == [v];
        PopRuns(s.alu, s.ch, c, 0, p, callee, st, [], v);
        StmtStrays(s, default.value, names, t, p + 1, callee, st, fuel, limit);
        if Exec(s.alu, default.value, st, fuel).Wide? { GoodFrom(s, c, 1, p + 1, callee, st, [], limit); }
      }
    case MoreCases(first, more, body, rest) =>
      if Count(more) >= LABEL_LIMIT {
        WideLabelStrays(s, v, cases, names, t, p, callee, st, limit);
      } else {
        NarrowLabelStrays(s, v, cases, names, t, p, callee, st, fuel, limit);
      }
  }

  /** The label that is too wide: from here on at least 256 values are too many. */
  lemma WideLabelStrays(s: Setting, v: Value, cases: Cases, names: seq<string>, t: Target, p: nat, callee: Value, st: State,
                        limit: nat)
    requires cases.MoreCases? && Count(cases.more) >= LABEL_LIMIT
    requires CasesAt(s.ch, cases, names, t, p, p + CasesLen(cases, Extra(names, t)))
    requires Agree(names, st.scope) && Ready(t, names) && Leaves(s, t, Base(t) + 1 + EXTRA, limit)
    requires Continues(s, p + CasesLen(cases, Extra(names, t)), |names| + 1 + EXTRA, limit)
    ensures Good(s, At0(p, callee, st, [v]), limit)
  {
    hide StepN, Step, Stack, At, ExprAt, ExprsAt, StmtAt, Good, Leaves, EvalAny, StmtLen, ExprLen;
    var n, vals := AnyRuns(s.alu, s.ch, v, cases.first, cases.more, names, p, callee, st, [v]);
    var r := EvalAny(s.alu, v, cases.first, cases.more, st);
    var q := p + ExprLen(cases.first) + ExprsLen(cases.more);
    var h := |names| + 1 + EXTRA + 2;
    LabelStands(s, cases, names, t, p, Base(t) + 1 + EXTRA, limit);
    Picks(s, Count(cases.more) - EXTRA, q, h, limit);
    AnyAgrees(s.alu, v, cases.first, cases.more, names, st);
    var d := StepN(s.alu, s.ch, At0(p, callee, st, [v]), n);
    assert r.Yields? ==> Raised(d, q, h + (Count(cases.more) - EXTRA));
    FaultIsGood(s, d, limit);
    GoodBefore(s, At0(p, callee, st, [v]), n, limit);
  }

  lemma {:induction false} NarrowLabelStrays(s: Setting, v: Value, cases: Cases, names: seq<string>, t: Target, p: nat,
                                             callee: Value, st: State, fuel: nat, limit: nat)
    requires cases.MoreCases? && Count(cases.more) < LABEL_LIMIT
    requires CasesAt(s.ch, cases, names, t, p, p + CasesLen(cases, Extra(names, t)))
    requires Agree(names, st.scope) && Ready(t, names) && Leaves(s, t, Base(t) + 1 + EXTRA, limit)
    requires Continues(s, p + CasesLen(cases, Extra(names, t)), |names| + 1 + EXTRA, limit)
    ensures ExecCases(s.alu, v, cases, st, fuel).Wide? ==> Good(s, At0(p, callee, st, [v]), limit)
    decreases fuel, cases, 0
  {
    hide StepN, Step, Stack, At, ExprAt, ExprsAt, StmtAt, Good, Continues, Leaves, EvalAny, StmtLen, ExprLen;
    var c := At0(p, callee, st, [v]);
    var k := Extra(names, t);
    var end := p + CasesLen(cases, k);
    var j := p + ExprLen(cases.first) + ExprsLen(cases.more) + MultiLen(cases.more) + 3;
    var m := j + StmtLen(cases.body, k);
    var n := CaseTestRuns(s.alu, s.ch, v, cases, names, t, p, end, callee, st);
    AnyAgrees(s.alu, v, cases.first, cases.more, names, st);
    var hit := EvalAny(s.alu, v, cases.first, cases.more, st);
    if hit.Yields? && ExecCases(s.alu, v, cases, st, fuel).Wide? {
      if hit.value == Bool(true) {
        Jumps(s, end - (m + 3), m, |names| + 1 + EXTRA, limit);
        StmtStrays(s, cases.body, names, t, j, callee, hit.state, fuel, limit);
        GoodFrom(s, c, n, j, callee, hit.state, [], limit);
      } else {
        CasesStray(s, v, cases.rest, names, t, m + 3, callee, hit.state, fuel, limit);
        GoodFrom(s, c, n, m + 3, callee, hit.state, [v], limit);
      }
    }
  }

  // ---- declarations and statements in a row ----

  lemma {:induction false} ItemsStray(s: Setting, items: Items, global: bool, names: seq<string>, t: Target, p: nat,
                                      callee: Value, st: State, fuel: nat, limit: nat)
    requires ItemsAt(s.ch, items, global, names, t, p) && Agree(names, st.scope) && Ready(t, names)
    requires Leaves(s, t, Base(t) + 1 + EXTRA, limit)
    requires Continues(s, p + ItemsLen(items, global, Extra(names, t)),
                       |names| + 1 + EXTRA + (if global then 0 else Declared(items)), limit)
    ensures ExecItems(s.alu, items, global, st, fuel).Wide? ==> Good(s, At0(p, callee, st, []), limit)
    decreases fuel, items, 1
  {
    hide StepN, Step, Stack, At, ExprAt, StmtAt, ItemAt, Eval, Good, Continues, Leaves, Exec, ExecItem;
    match items
    case NoItems =>
    case MoreItems(head, tail) =>
      var c := At0(p, callee, st, []);
      var q := p + ItemLen(head, global, Extra(names, t));
      var r := ExecItem(s.alu, head, global, st, fuel);
      if r.Wide? {
        ItemsStand(s, tail, global, Extend(names, head, global), t, q, Base(t) + 1 + EXTRA, limit);
        ItemStrays(s, head, global, names, t, p, callee, st, fuel, limit);
      }
      var n := ItemRuns(s.alu, s.ch, head, global, names, t, p, callee, st, fuel);
      if r.Done? && r.flow.Normal? && ExecItems(s.alu, tail, global, r.state, fuel).Wide? {
        ItemsStray(s, tail, global, Extend(names, head, global), t, q, callee, r.state, fuel, limit);
        GoodFrom(s, c, n, q, callee, r.state, [], limit);
      }
  }

  lemma {:induction false} ItemStrays(s: Setting, item: Item, global: bool, names: seq<string>, t: Target, p: nat,
                                      callee: Value, st: State, fuel: nat, limit: nat)
    requires ItemAt(s.ch, item, global, names, t, p) && Agree(names, st.scope) && Ready(t, names)
    requires Leaves(s, t, Base(t) + 1 + EXTRA, limit)
    requires Continues(s, p + ItemLen(item, global, Extra(names, t)), |names| + 1 + EXTRA + Adds(item, global), limit)
    ensures ExecItem(s.alu, item, global, st, fuel).Wide? ==> Good(s, At0(p, callee, st, []), limit)
    decreases fuel, item, 3
  {
    hide StepN, Step, Stack, At, ExprAt, StmtAt, Eval, Good, Continues, Leaves, Exec;
    if item.Perform? { StmtStrays(s, item.s, names, t, p, callee, st, fuel, limit); }
  }

  // ---- loops ----

  lemma {:induction false} WhileStrays(s: Setting, test: Option<Expr>, body: Stmt, names: seq<string>, p: nat,
                                       callee: Value, st: State, fuel: nat, limit: nat)
    requires WhileAt(s.ch, test, body, names, p) && Agree(names, st.scope)
    requires Continues(s, p + InitLen(test) + StmtLen(body, 0) + 8, |names| + 1 + EXTRA, limit)
    ensures ExecLoop(s.alu, test, None, body, st, fuel).Wide? ==> Good(s, At0(p, callee, st, []), limit)
    decreases fuel, body, 4
  {
    hide StepN, Step, Stack, At, ExprAt, StmtAt, StmtLen, Eval, Good, Continues, Iterate;
    var a := if test.Some? then Eval(s.alu, test.value, st) else Yields(Bool(true), st);
    if fuel > 0 && a.Yields? && !IsFalsey(a.value) && Iterate(s.alu, test, None, body, a.state, fuel).Wide? {
      var c := At0(p, callee, st, []);
      var q := p + InitLen(test);
      var m := q + 4 + StmtLen(body, 0);
      var n := InitRuns(s.alu, s.ch, test, Bool(true), names, p, callee, st);
      if test.Some? { EvalAgrees(s.alu, test.value, names, st); }
      assert [] + [a.value] == [a.value];
      n := BranchRuns(s.alu, s.ch, c, n, q, m + 3 - (q + 3), callee, a.state, [], a.value);
      WhileBodyStrays(s, test, body, names, p, callee, a.state, fuel, limit);
      GoodFrom(s, c, n, q + 4, callee, a.state, [], limit);
    }
  }

  lemma {:induction false} WhileBodyStrays(s: Setting, test: Option<Expr>, body: Stmt, names: seq<string>, p: nat,
                                           callee: Value, st: State, fuel: nat, limit: nat)
    requires WhileAt(s.ch, test, body, names, p) && Agree(names, st.scope) && fuel > 0
    requires Continues(s, p + InitLen(test) + StmtLen(body, 0) + 8, |names| + 1 + EXTRA, limit)
    ensures Iterate(s.alu, test, None, body, st, fuel).Wide? ==> Good(s, At0(p + InitLen(test) + 4, callee, st, []), limit)
    decreases fuel, body, 3
  {
    hide StepN, Step, Stack, At, ExprAt, StmtAt, StmtLen, Eval, Good, Continues, Exec, ExecLoop;
    var b := p + InitLen(test) + 4;
    var m := b + StmtLen(body, 0);
    var t := InLoop(p, |names|, Some(m + 4));
    var h := |names| + 1 + EXTRA;
    var c := At0(b, callee, st, []);
    WhileBodyStands(s, test, body, names, p, h, limit);
    StmtStrays(s, body, names, t, b, callee, st, fuel, limit);
    var n := StmtRuns(s.alu, s.ch, body, names, t, b, callee, st, fuel);
    ExecAgrees(s.alu, body, names, st, fuel);
    var r := Exec(s.alu, body, st, fuel);
    if r.Done? && !r.flow.Broke? {
      ShrinkNone(r.state);
      if r.flow.Normal? {
        LoopRuns(s.alu, s.ch, c, n, m, m + 3 - p, callee, r.state);
        n := n + 1;
      }
      WhileStrays(s, test, body, names, p, callee, r.state, fuel - 1, limit);
      if ExecLoop(s.alu, test, None, body, r.state, fuel - 1).Wide? { GoodFrom(s, c, n, p, callee, r.state, [], limit); }
    }
  }

  lemma {:induction false} ForStatementStrays(s: Setting, b: Stmt, names: seq<string>, t: Target, p: nat, callee: Value,
                                              st: State, fuel: nat, limit: nat)
    requires b.For? && StmtAt(s.ch, b, names, t, p) && Agree(names, st.scope) && Ready(t, names)
    requires Leaves(s, t, Base(t) + 1 + EXTRA, limit)
    requires Continues(s, p + StmtLen(b, Extra(names, t)), |names| + 1 + EXTRA, limit)
    ensures Exec(s.alu, b, st, fuel).Wide? ==> Good(s, At0(p, callee, st, []), limit)
    decreases fuel, b, 1
  {
    hide StepN, Step, Stack, At, ItemsAt, ForAt, ExecItems, ExecLoop, Good, Continues, Leaves, PopsAt;
    var c := At0(p, callee, st, []);
    var q := p + ItemsLen(b.init, false, Extra(names, t));
    var all := ExtendAll(names, b.init, false);
    var h := |names| + 1 + EXTRA;
    Pops(s, q + ForLen(b.test, b.step, b.body), Declared(b.init), h, limit);
    ForStands(s, b.test, b.step, b.body, all, q, h + Declared(b.init), limit);
    ItemsStray(s, b.init, false, names, t, p, callee, st, fuel, limit);
    var n := ItemsRun(s.alu, s.ch, b.init, false, names, t, p, callee, st, fuel);
    ItemsAgree(s.alu, b.init, false, names, st, fuel);
    var r := ExecItems(s.alu, b.init, false, st, fuel);
    if r.Done? && r.flow.Normal? && ExecLoop(s.alu, b.test, b.step, b.body, r.state, fuel).Wide? {
      ForStrays(s, b.test, b.step, b.body, all, q, callee, r.state, fuel, limit);
      GoodFrom(s, c, n, q, callee, r.state, [], limit);
    }
  }

  lemma {:induction false} ForStrays(s: Setting, test: Option<Expr>, step: Option<Expr>, body: Stmt, names: seq<string>,
                                     p: nat, callee: Value, st: State, fuel: nat, limit: nat)
    requires ForAt(s.ch, test, step, body, names, p) && Agree(names, st.scope)
    requires Continues(s, p + ForLen(test, step, body), |names| + 1 + EXTRA, limit)
    ensures ExecLoop(s.alu, test, step, body, st, fuel).Wide? ==> Good(s, At0(p, callee, st, []), limit)
    decreases fuel, body, 4
  {
    hide StepN, Step, Stack, At, ExprAt, StmtAt, StmtLen, Eval, Good, Continues, Iterate;
    var a := if test.Some? then Eval(s.alu, test.value, st) else Yields(Bool(true), st);
    if fuel > 0 && a.Yields? && !IsFalsey(a.value) && Iterate(s.alu, test, step, body, a.state, fuel).Wide? {
      var n := ForTestRuns(s.alu, s.ch, test, step, body, names, p, callee, st);
      if test.Some? { EvalAgrees(s.alu, test.value, names, st); }
      ForBodyStrays(s, test, step, body, names, p, callee, a.state, fuel, limit);
      GoodFrom(s, At0(p, callee, st, []), n, p + TestLen(test) + StepLen(step), callee, a.state, [], limit);
    }
  }

  lemma {:induction false} ForBodyStrays(s: Setting, test: Option<Expr>, step: Option<Expr>, body: Stmt,
                                         names: seq<string>, p: nat, callee: Value, st: State, fuel: nat, limit: nat)
    requires ForAt(s.ch, test, step, body, names, p) && Agree(names, st.scope) && fuel > 0
    requires Continues(s, p + ForLen(test, step, body), |names| + 1 + EXTRA, limit)
    ensures Iterate(s.alu, test, step, body, st, fuel).Wide? ==>
            Good(s, At0(p + TestLen(test) + StepLen(step), callee, st, []), limit)
    decreases fuel, body, 3
  {
    hide StepN, Step, Stack, At, StmtAt, StmtLen, Eval, Good, Continues, Exec, ExecLoop, TestLen, StepLen, ForAt, ForLen, Leaves;
    var b := p + TestLen(test) + StepLen(step);
    var back := if step.Some? then p + TestLen(test) + 3 else p;
    var t := InLoop(back, |names|, Some(p + ForLen(test, step, body)));
    var h := |names| + 1 + EXTRA;
    var c := At0(b, callee, st, []);
    ForBodyAt(s.ch, test, step, body, names, p);
    ForBodyStands(s, test, step, body, names, p, h, limit);
    StmtStrays(s, body, names, t, b, callee, st, fuel, limit);
    var n := StmtRuns(s.alu, s.ch, body, names, t, b, callee, st, fuel);
    ExecAgrees(s.alu, body, names, st, fuel);
    var r := Exec(s.alu, body, st, fuel);
    if r.Done? && !r.flow.Broke? {
      ShrinkNone(r.state);
      n := ForTurnRuns(s.alu, s.ch, test, step, body, names, p, callee, c, r.state, r.flow.Normal?, n);
      var w := if step.Some? then Eval(s.alu, step.value, r.state) else Yields(Nil, r.state);
      if w.Yields? && ExecLoop(s.alu, test, step, body, w.state, fuel - 1).Wide? {
        if step.Some? { EvalAgrees(s.alu, step.value, names, r.state); }
        ForStrays(s, test, step, body, names, p, callee, w.state, fuel - 1, limit);
        GoodFrom(s, c, n, p, callee, w.state, [], limit);
      }
    }
  }

  // ---- whole programs ----

  /** If a program comes to a label that is too wide, the machine never halts with fewer than 256 values left over. */
  lemma ProgramStrays(alu: Alu, ch: Chunk, program: Items, callee: Value, globals: map<string, Value>, fuel: nat, n: nat)
    requires ProgramAt(ch, program) && ExecItems(alu, program, true, State([], globals), fuel).Wide?
    ensures var c := StepN(alu, ch, Running(0, [callee], globals), n);
            c.Halted? ==> |c.stack| >= EXTRA
  {
    hide StepN, Step, At, ItemsAt, ExecItems, Continues;
    var s := Setting(alu, ch, EXTRA);
    EndStands(s, program, EXTRA, n);
    assert At0(0, callee, State([], globals), []) == Running(0, [callee], globals);
    ItemsStray(s, program, true, [], NoLoop, 0, callee, State([], globals), fuel, n);
    GoodAfter(s, Running(0, [callee], globals), n);
  }
}
