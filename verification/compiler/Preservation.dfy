/** Running the code of a statement does what the semantics says: same variables, same globals,
    and on every way out - falling through, `break`, `continue` - exactly the variables still in
    scope on the stack. A statement that never finishes keeps the machine running for ever. */
module Preservation {
  import opened Options
  import opened Values
  import opened Language
  import opened Semantics
  import opened Bytecode
  import opened Machine
  import opened Layout
  import opened ExprPreservation

  /** `scope` begins with the variables `names`. */
  predicate Covers(names: seq<string>, scope: seq<Binding>) {
    |names| <= |scope| && forall i :: 0 <= i < |names| ==> names[i] == scope[i].name
  }

  /** The loop around the code has a known exit and no more variables than there are now. */
  predicate Ready(t: Target, names: seq<string>) {
    t.InLoop? ==> t.exit.Some? && t.base <= |names|
  }

  /** How many of the values of a label the one-byte count does not see. */
  function Unseen(more: nat): nat {
    more / LABEL_LIMIT * LABEL_LIMIT
  }

  /** A case label had too many further values: the machine goes on with those its count does not see left between the
      subject and the value that it compares. */
  ghost predicate Overfull(c: Config, st: State, v: Value, further: nat, callee: Value) {
    && further >= LABEL_LIMIT && c.Running? && c.globals == st.globals
    && exists junk: seq<Value>, w: Value ::
         |junk| == Unseen(further) && c.stack == Stack(callee, st.scope, [v] + junk + [w])
  }

  /** Where the machine must be after `n` steps of a statement whose code ends at `q`. */
  ghost predicate Reached(c: Config, n: nat, r: Outcome, q: nat, t: Target, callee: Value, fuel: nat) {
    match r
    case Crash(g) => c == Faulted(g)
    case Timeout => c.Running? && fuel <= n
    case Wide(st, v, further) => Overfull(c, st, v, further, callee)
    case Done(Normal, st) => c == At0(q, callee, st, [])
    case Done(Broke, st) => t.InLoop? && t.exit.Some? && c == At0(t.exit.value, callee, Shrink(st, t.base), [])
    case Done(Continued, st) => t.InLoop? && c == At0(t.start, callee, Shrink(st, t.base), []) && 0 < n
  }

  // ---- statements keep the variables in scope, items extend them ----

  lemma {:induction false} ExecAgrees(alu: Alu, s: Stmt, names: seq<string>, st: State, fuel: nat)
    requires Agree(names, st.scope)
    ensures var r := Exec(alu, s, st, fuel); r.Done? ==> Agree(names, r.state.scope)
    decreases fuel, s, 1
  {
    match s
    case Evaluate(e) => EvalAgrees(alu, e, names, st);
    case Block(items) => ItemsAgree(alu, items, false, names, st, fuel);
    case If(c, yes, no) =>
      EvalAgrees(alu, c, names, st);
      var v := Eval(alu, c, st);
      if v.Yields? {
        ExecAgrees(alu, yes, names, v.state, fuel);
        if no.Some? { ExecAgrees(alu, no.value, names, v.state, fuel); }
      }
    case While(test, body) => LoopAgrees(alu, test, None, body, names, st, fuel);
    case For(init, test, step, body) =>
      ItemsAgree(alu, init, false, names, st, fuel);
      var r := ExecItems(alu, init, false, st, fuel);
      if r.Done? && r.flow.Normal? {
        LoopAgrees(alu, test, step, body, ExtendAll(names, init, false), r.state, fuel);
      }
    case Switch(subject, cases) =>
      EvalAgrees(alu, subject, names, st);
      var v := Eval(alu, subject, st);
      if v.Yields? { CasesAgree(alu, v.value, cases, names, v.state, fuel); }
    case Break =>
    case Continue =>
  }

  lemma {:induction false} CasesAgree(alu: Alu, v: Value, cases: Cases, names: seq<string>, st: State, fuel: nat)
    requires Agree(names, st.scope)
    ensures var r := ExecCases(alu, v, cases, st, fuel); r.Done? ==> Agree(names, r.state.scope)
    decreases fuel, cases, 1
  {
    match cases
    case Otherwise(default) => if default.Some? { ExecAgrees(alu, default.value, names, st, fuel); }
    case MoreCases(first, more, body, rest) =>
      AnyAgrees(alu, v, first, more, names, st);
      var hit := EvalAny(alu, v, first, more, st);
      if hit.Yields? {
        ExecAgrees(alu, body, names, hit.state, fuel);
        CasesAgree(alu, v, rest, names, hit.state, fuel);
      }
  }

  lemma {:induction false} AnyAgrees(alu: Alu, v: Value, first: Expr, more: Exprs, names: seq<string>, st: State)
    requires Agree(names, st.scope)
    ensures var r := EvalAny(alu, v, first, more, st); r.Yields? ==> Agree(names, r.state.scope)
    decreases more
  {
    EvalAgrees(alu, first, names, st);
    var a := Eval(alu, first, st);
    if a.Yields? && more.MoreExprs? {
      AnyAgrees(alu, v, more.head, more.tail, names, a.state);
    }
  }

  lemma {:induction false} LoopAgrees(alu: Alu, test: Option<Expr>, step: Option<Expr>, body: Stmt, names: seq<string>,
                                      st: State, fuel: nat)
    requires Agree(names, st.scope)
    ensures var r := ExecLoop(alu, test, step, body, st, fuel);
            r.Done? ==> r.flow.Normal? && Agree(names, r.state.scope)
    decreases fuel, body, 2
  {
    if fuel > 0 {
      if test.Some? { EvalAgrees(alu, test.value, names, st); }
      var v := if test.Some? then Eval(alu, test.value, st) else Yields(Bool(true), st);
      if v.Yields? && !IsFalsey(v.value) {
        ExecAgrees(alu, body, names, v.state, fuel);
        var r := Exec(alu, body, v.state, fuel);
        if r.Done? && !r.flow.Broke? {
          if step.Some? { EvalAgrees(alu, step.value, names, r.state); }
          var w := if step.Some? then Eval(alu, step.value, r.state) else Yields(Nil, r.state);
          if w.Yields? { LoopAgrees(alu, test, step, body, names, w.state, fuel - 1); }
        }
      }
    }
  }

  lemma {:induction false} ItemsAgree(alu: Alu, items: Items, global: bool, names: seq<string>, st: State, fuel: nat)
    requires Agree(names, st.scope)
    ensures var r := ExecItems(alu, items, global, st, fuel);
            r.Done? ==> Covers(names, r.state.scope)
                        && (r.flow.Normal? ==> Agree(ExtendAll(names, items, global), r.state.scope))
    decreases fuel, items, 1
  {
    match items
    case NoItems =>
    case MoreItems(head, tail) =>
      match head {
        case Perform(s) => ExecAgrees(alu, s, names, st, fuel);
        case Declare(_, init, _) => if init.Some? { EvalAgrees(alu, init.value, names, st); }
      }
      var r := ExecItem(alu, head, global, st, fuel);
      if r.Done? && r.flow.Normal? {
        ItemsAgree(alu, tail, global, Extend(names, head, global), r.state, fuel);
      }
  }

  // ---- single instructions and runs of pops ----

  lemma LoopRuns(alu: Alu, ch: Chunk, c: Config, n: nat, q: nat, offset: nat, callee: Value, st: State)
    requires StepN(alu, ch, c, n) == At0(q, callee, st, []) && At(ch.code, q, Loop(offset)) && offset <= q + 3
    ensures StepN(alu, ch, c, n + 1) == At0(q + 3 - offset, callee, st, [])
  {
    hide StepN, Step, Fetch, Stack;
    OneMore(alu, ch, c, n, Loop(offset));
  }

  /** `k` pops discard the `k` innermost variables. */
  lemma {:induction false} PopsRun(alu: Alu, ch: Chunk, c: Config, n: nat, q: nat, k: nat, callee: Value, st: State)
    requires StepN(alu, ch, c, n) == At0(q, callee, st, []) && PopsAt(ch.code, q, k) && k <= |st.scope|
    ensures StepN(alu, ch, c, n + k) == At0(q + k, callee, Shrink(st, |st.scope| - k), [])
    decreases k
  {
    hide StepN, Step, Execute, Fetch;
    var size := |st.scope|;
    if k == 0 {
      assert st.scope[..size] == st.scope;
    } else {
      var last := st.scope[size - 1].value;
      var less := Shrink(st, size - 1);
      assert Stack(callee, st.scope, []) == Stack(callee, less.scope, [last]);
      assert [] + [last] == [last];
      PopRuns(alu, ch, c, n, q, callee, less, [], last);
      PopsRun(alu, ch, c, n + 1, q + 1, k - 1, callee, less);
      assert less.scope[..size - k] == st.scope[..size - k];
    }
  }

  lemma ShrinkTwice(st: State, m: nat, n: nat)
    requires n <= m <= |st.scope|
    ensures Shrink(Shrink(st, m), n) == Shrink(st, n)
  {
    assert st.scope[..m][..n] == st.scope[..n];
  }

  lemma ShrinkNone(st: State)
    ensures Shrink(st, |st.scope|) == st
  {
    assert st.scope[..|st.scope|] == st.scope;
  }

  /** A run followed by a run. */
  lemma Chain(alu: Alu, ch: Chunk, c: Config, n: nat, k: nat, r: Outcome, q: nat, t: Target, callee: Value, fuel: nat)
    requires Reached(StepN(alu, ch, StepN(alu, ch, c, n), k), k, r, q, t, callee, fuel)
    ensures Reached(StepN(alu, ch, c, n + k), n + k, r, q, t, callee, fuel)
  {
    hide StepN, Step;
    StepsAdd(alu, ch, c, n, k);
  }

  // ---- switch ----

  /** All values of a case are pushed, then compared; `vals` is what they evaluate to. */
  lemma {:induction false} AnyRuns(alu: Alu, ch: Chunk, v: Value, first: Expr, more: Exprs, names: seq<string>, p: nat,
                                   callee: Value, st: State, temps: seq<Value>) returns (n: nat, vals: seq<Value>)
    requires ExprAt(ch, first, names, p) && ExprsAt(ch, more, names, p + ExprLen(first)) && Agree(names, st.scope)
    ensures |vals| == 1 + Count(more)
    ensures match EvalAny(alu, v, first, more, st)
            case Fault(g) => StepN(alu, ch, At0(p, callee, st, temps), n) == Faulted(g)
            case Yields(hit, st1) =>
              && StepN(alu, ch, At0(p, callee, st, temps), n)
                 == At0(p + ExprLen(first) + ExprsLen(more), callee, st1, temps + vals)
              && hit == Bool(v in vals)
    decreases more
  {
    hide StepN, Step, Stack, ExprAt, ExprLen, Eval, Agree;
    n := ExprRuns(alu, ch, first, names, p, callee, st, temps);
    EvalAgrees(alu, first, names, st);
    var a := Eval(alu, first, st);
    vals := seq(1 + Count(more), i => Nil);
    if a.Yields? {
      if more.NoExprs? {
        vals := [a.value];
      } else {
        var c := At0(p, callee, st, temps);
        var k, rest := AnyRuns(alu, ch, v, more.head, more.tail, names, p + ExprLen(first), callee, a.state, temps + [a.value]);
        StepsAdd(alu, ch, c, n, k);
        n := n + k;
        vals := [a.value] + rest;
        assert temps + [a.value] + rest == temps + vals;
      }
    }
  }

  /** After MULTI_CASE, for every size: the unseen values stay, and of the others one is picked by comparing with
      the value below them, which is the subject if there are no unseen ones. */
  lemma MultiRuns(alu: Alu, ch: Chunk, c: Config, n: nat, q: nat, callee: Value, st: State, v: Value, vals: seq<Value>)
    requires |vals| >= 2 && At(ch.code, q, MultiCase((|vals| - 1) % 256))
    requires StepN(alu, ch, c, n) == At0(q, callee, st, [v] + vals)
    ensures Unseen(|vals| - 1) < |vals|
    ensures var e := Unseen(|vals| - 1);
            StepN(alu, ch, c, n + 1) == At0(q + 2, callee, st, [v] + vals[..e] + [Pick(([v] + vals)[e], vals[e..])])
  {
    hide StepN, Step, Fetch, Pick, Stack, Unseen, Execute, At;
    UnseenRest(|vals|);
    var count := (|vals| - 1) % 256;
    var e := Unseen(|vals| - 1);
    OneMore(alu, ch, c, n, MultiCase(count));
    var below, top := Stack(callee, st.scope, [v] + vals[..e]), ([v] + vals)[e];
    var all := Stack(callee, st.scope, [v] + vals);
    StackParts(callee, st.scope, v, vals, e);
    assert all[..|below|] == below && all[|below|..] == vals[e..];
    MultiExecute(alu, ch.constants, count, q, all, st.globals, |below|);
    StackPush(callee, st.scope, [v] + vals[..e], Pick(top, vals[e..]));
  }

  lemma MultiExecute(alu: Alu, constants: seq<Value>, count: Byte, ip: nat, stack: seq<Value>, globals: map<string, Value>,
                     base: nat)
    requires 0 < base && |stack| == base + count + 1
    ensures Execute(alu, constants, MultiCase(count), ip, stack, globals) ==
            Running(ip + 2, stack[..base] + [Pick(stack[base - 1], stack[base..])], globals)
  {
    hide Pick;
  }

  lemma UnseenRest(n: nat)
    requires n > 0
    ensures Unseen(n - 1) + (n - 1) % 256 + 1 == n
  {
  }

  lemma StackParts(callee: Value, scope: seq<Binding>, v: Value, vals: seq<Value>, e: nat)
    requires e < |vals|
    ensures Stack(callee, scope, [v] + vals) == Stack(callee, scope, [v] + vals[..e]) + vals[e..]
    ensures var below := Stack(callee, scope, [v] + vals[..e]); below[|below| - 1] == ([v] + vals)[e]
  {
    assert [v] + vals == [v] + vals[..e] + vals[e..];
    assert ([v] + vals[..e])[e] == ([v] + vals)[e];
  }

  lemma StackPush(callee: Value, scope: seq<Binding>, temps: seq<Value>, w: Value)
    ensures Stack(callee, scope, temps + [w]) == Stack(callee, scope, temps) + [w]
  {
  }

  lemma CompareRuns(alu: Alu, ch: Chunk, c: Config, n: nat, q: nat, offset: nat, callee: Value, st: State,
                    temps: seq<Value>, v: Value, w: Value)
    requires At(ch.code, q, CompareJump(offset)) && StepN(alu, ch, c, n) == At0(q, callee, st, temps + [v] + [w])
    ensures StepN(alu, ch, c, n + 1) ==
            if w == v then At0(q + 3, callee, st, temps) else At0(q + 3 + offset, callee, st, temps + [v])
  {
    hide StepN, Step, Fetch;
    OneMore(alu, ch, c, n, CompareJump(offset));
    var below := Stack(callee, st.scope, temps);
    assert Stack(callee, st.scope, temps + [v] + [w]) == below + [v] + [w];
    assert Stack(callee, st.scope, temps + [v]) == below + [v];
  }

  /** The values of a label, up to the comparison that follows: `x` and `w` are compared, and for each 256 values that
      the count byte lost, 256 values are left as `junk` below. */
  lemma LabelRuns(alu: Alu, ch: Chunk, v: Value, first: Expr, more: Exprs, names: seq<string>, p: nat, callee: Value,
                  st: State) returns (n: nat, junk: seq<Value>, x: Value, w: Value)
    requires ExprAt(ch, first, names, p) && ExprsAt(ch, more, names, p + ExprLen(first)) && Agree(names, st.scope)
    requires more.MoreExprs? ==> At(ch.code, p + ExprLen(first) + ExprsLen(more), MultiCase(Count(more) % 256))
    ensures |junk| == Unseen(Count(more)) && (junk + [x])[0] == v
    ensures match EvalAny(alu, v, first, more, st)
            case Fault(g) => StepN(alu, ch, At0(p, callee, st, [v]), n) == Faulted(g)
            case Yields(hit, st1) =>
              && StepN(alu, ch, At0(p, callee, st, [v]), n) ==
                 At0(p + ExprLen(first) + ExprsLen(more) + MultiLen(more), callee, st1, junk + [x] + [w])
              && (junk == [] ==> (w == v <==> hit == Bool(true)))
  {
    hide StepN, Step, Stack, At, ExprAt, ExprsAt, EvalAny, ExprLen, ExprsLen, Pick;
    var c := At0(p, callee, st, [v]);
    var vals;
    n, vals := AnyRuns(alu, ch, v, first, more, names, p, callee, st, [v]);
    var r := EvalAny(alu, v, first, more, st);
    var f := Unseen(Count(more));
    UnseenRest(|vals|);
    w := vals[0];
    junk, x := ([v] + vals)[..f], ([v] + vals)[f];
    assert [v] + vals[..f] == junk + [x];
    if more.NoExprs? {
      assert vals == [w] && junk == [];
      assert [v] + vals == junk + [x] + [w];
    } else if r.Yields? {
      MultiRuns(alu, ch, c, n, p + ExprLen(first) + ExprsLen(more), callee, r.state, v, vals);
      w := Pick(x, vals[f..]);
      n := n + 1;
      assert junk == [] ==> f == 0 && vals[0..] == vals;
    }
  }

  /** The test of one case: on a hit the subject is gone and the body is next, otherwise the
      subject is still there and the next case is next. */
  lemma CaseTestRuns(alu: Alu, ch: Chunk, v: Value, cases: Cases, names: seq<string>, t: Target, p: nat, end: nat,
                     callee: Value, st: State) returns (n: nat)
    requires cases.MoreCases? && Count(cases.more) < LABEL_LIMIT
    requires cases.MoreCases? && CasesAt(ch, cases, names, t, p, end) && Agree(names, st.scope)
    ensures var j := p + ExprLen(cases.first) + ExprsLen(cases.more) + MultiLen(cases.more) + 3;
            match EvalAny(alu, v, cases.first, cases.more, st)
            case Fault(g) => StepN(alu, ch, At0(p, callee, st, [v]), n) == Faulted(g)
            case Yields(hit, st1) =>
              StepN(alu, ch, At0(p, callee, st, [v]), n) ==
                if hit == Bool(true) then At0(j, callee, st1, [])
                else At0(j + StmtLen(cases.body, Extra(names, t)) + 3, callee, st1, [v])
  {
    hide StepN, Step, Stack, ExprAt, ExprsAt, StmtAt, EvalAny, At, StmtLen, ExprLen, ExprsLen, Extra;
    var junk, x, w;
    n, junk, x, w := LabelRuns(alu, ch, v, cases.first, cases.more, names, p, callee, st);
    assert junk == [];
    assert junk + [x] == [v];
    var r := EvalAny(alu, v, cases.first, cases.more, st);
    if r.Yields? {
      var j := p + ExprLen(cases.first) + ExprsLen(cases.more) + MultiLen(cases.more);
      var m := j + 3 + StmtLen(cases.body, Extra(names, t));
      assert [] + [v] == [v];
      CompareRuns(alu, ch, At0(p, callee, st, [v]), n, j, m + 3 - (j + 3), callee, r.state, [], v, w);
      n := n + 1;
    }
  }

  /** All values of a label that is too wide are pushed, and most of them stay. */
  lemma WideTestRuns(alu: Alu, ch: Chunk, v: Value, cases: Cases, names: seq<string>, t: Target, p: nat, end: nat,
                     callee: Value, st: State) returns (n: nat)
    requires cases.MoreCases? && Count(cases.more) >= LABEL_LIMIT
    requires cases.MoreCases? && CasesAt(ch, cases, names, t, p, end) && Agree(names, st.scope)
    ensures match EvalAny(alu, v, cases.first, cases.more, st)
            case Fault(g) => StepN(alu, ch, At0(p, callee, st, [v]), n) == Faulted(g)
            case Yields(_, st1) =>
              Overfull(StepN(alu, ch, At0(p, callee, st, [v]), n), st1, v, Count(cases.more), callee)
  {
    hide StepN, Step, Stack, ExprAt, ExprsAt, StmtAt, EvalAny, At, StmtLen, ExprLen, ExprsLen;
    var junk, x, w;
    n, junk, x, w := LabelRuns(alu, ch, v, cases.first, cases.more, names, p, callee, st);
    assert junk + [x] + [w] == [v] + (junk + [x])[1..] + [w];
  }

  // ---- the simulation ----

  lemma {:induction false} CasesRun(alu: Alu, ch: Chunk, v: Value, cases: Cases, names: seq<string>, t: Target, p: nat,
                                    callee: Value, st: State, fuel: nat) returns (n: nat)
    requires CasesAt(ch, cases, names, t, p, p + CasesLen(cases, Extra(names, t)))
    requires Agree(names, st.scope) && Ready(t, names)
    ensures Reached(StepN(alu, ch, At0(p, callee, st, [v]), n), n, ExecCases(alu, v, cases, st, fuel),
                    p + CasesLen(cases, Extra(names, t)), t, callee, fuel)
    decreases fuel, cases, 1
  {
    hide StepN, Step, Stack, EvalAny, At, CasesAt, ExecCases, CasesLen, Reached, Agree;
    if cases.Otherwise? {
      n := DefaultRuns(alu, ch, v, cases, names, t, p, callee, st, fuel);
    } else if Count(cases.more) >= LABEL_LIMIT {
      n := WideTestRuns(alu, ch, v, cases, names, t, p, p + CasesLen(cases, Extra(names, t)), callee, st);
      WideReached(alu, ch, v, cases, t, p, p + CasesLen(cases, Extra(names, t)), callee, st, fuel, n);
    } else {
      n := CaseTestRuns(alu, ch, v, cases, names, t, p, p + CasesLen(cases, Extra(names, t)), callee, st);
      n := CaseBodyRuns(alu, ch, v, cases, names, t, p, callee, st, fuel, n);
    }
  }

  lemma WideReached(alu: Alu, ch: Chunk, v: Value, cases: Cases, t: Target, p: nat, q: nat, callee: Value, st: State,
                    fuel: nat, n: nat)
    requires cases.MoreCases? && Count(cases.more) >= LABEL_LIMIT
    requires match EvalAny(alu, v, cases.first, cases.more, st)
             case Fault(g) => StepN(alu, ch, At0(p, callee, st, [v]), n) == Faulted(g)
             case Yields(_, st1) =>
               Overfull(StepN(alu, ch, At0(p, callee, st, [v]), n), st1, v, Count(cases.more), callee)
    ensures Reached(StepN(alu, ch, At0(p, callee, st, [v]), n), n, ExecCases(alu, v, cases, st, fuel), q, t, callee, fuel)
  {
    hide StepN, Step, Stack, EvalAny, Overfull;
  }

  lemma {:induction false} DefaultRuns(alu: Alu, ch: Chunk, v: Value, cases: Cases, names: seq<string>, t: Target, p: nat,
                                       callee: Value, st: State, fuel: nat) returns (n: nat)
    requires cases.Otherwise? && CasesAt(ch, cases, names, t, p, p + CasesLen(cases, Extra(names, t)))
    requires Agree(names, st.scope) && Ready(t, names)
    ensures Reached(StepN(alu, ch, At0(p, callee, st, [v]), n), n, ExecCases(alu, v, cases, st, fuel),
                    p + CasesLen(cases, Extra(names, t)), t, callee, fuel)
    decreases fuel, cases, 0
  {
    hide StepN, Step, Stack, At, StmtLen, Agree, Extra;
    var c := At0(p, callee, st, [v]);
    ZeroSteps(alu, ch, c);
    assert [] + [v] == [v];
    PopRuns(alu, ch, c, 0, p, callee, st, [], v);
    n := 1;
    if cases.default.Some? {
      var s := cases.default.value;
      var k := StmtRuns(alu, ch, s, names, t, p + 1, callee, st, fuel);
      hide Reached;
      Chain(alu, ch, c, n, k, Exec(alu, s, st, fuel), p + 1 + StmtLen(s, Extra(names, t)), t, callee, fuel);
      n := n + k;
    }
  }

  lemma {:induction false} CaseBodyRuns(alu: Alu, ch: Chunk, v: Value, cases: Cases, names: seq<string>, t: Target, p: nat,
                                        callee: Value, st: State, fuel: nat, m: nat) returns (n: nat)
    requires cases.MoreCases? && CasesAt(ch, cases, names, t, p, p + CasesLen(cases, Extra(names, t)))
    requires Agree(names, st.scope) && Ready(t, names) && Count(cases.more) < LABEL_LIMIT
    requires var j := p + ExprLen(cases.first) + ExprsLen(cases.more) + MultiLen(cases.more) + 3;
             match EvalAny(alu, v, cases.first, cases.more, st)
             case Fault(g) => StepN(alu, ch, At0(p, callee, st, [v]), m) == Faulted(g)
             case Yields(hit, st1) =>
               StepN(alu, ch, At0(p, callee, st, [v]), m) ==
                 if hit == Bool(true) then At0(j, callee, st1, [])
                 else At0(j + StmtLen(cases.body, Extra(names, t)) + 3, callee, st1, [v])
    ensures Reached(StepN(alu, ch, At0(p, callee, st, [v]), n), n, ExecCases(alu, v, cases, st, fuel),
                    p + CasesLen(cases, Extra(names, t)), t, callee, fuel)
    decreases fuel, cases, 0
  {
    hide StepN, Step, Stack, EvalAny, At, ExprAt, ExprsAt, StmtAt, StmtLen, ExprLen, ExprsLen, Extra, Exec, Overfull;
    var c := At0(p, callee, st, [v]);
    var j := p + ExprLen(cases.first) + ExprsLen(cases.more) + MultiLen(cases.more) + 3;
    var e := j + StmtLen(cases.body, Extra(names, t));
    var end := p + CasesLen(cases, Extra(names, t));
    n := m;
    AnyAgrees(alu, v, cases.first, cases.more, names, st);
    var hit := EvalAny(alu, v, cases.first, cases.more, st);
    if hit.Fault? { return; }
    if hit.value == Bool(true) {
      var k := StmtRuns(alu, ch, cases.body, names, t, j, callee, hit.state, fuel);
      var r := Exec(alu, cases.body, hit.state, fuel);
      Chain(alu, ch, c, m, k, r, e, t, callee, fuel);
      n := m + k;
      if r.Done? && r.flow.Normal? {
        JumpRuns(alu, ch, c, n, e, end - (e + 3), callee, r.state, []);
        n := n + 1;
      }
    } else {
      var k := CasesRun(alu, ch, v, cases.rest, names, t, e + 3, callee, hit.state, fuel);
      Chain(alu, ch, c, m, k, ExecCases(alu, v, cases.rest, hit.state, fuel), end, t, callee, fuel);
      n := m + k;
    }
  }

  lemma {:induction false} ItemsRun(alu: Alu, ch: Chunk, items: Items, global: bool, names: seq<string>, t: Target, p: nat,
                                    callee: Value, st: State, fuel: nat) returns (n: nat)
    requires ItemsAt(ch, items, global, names, t, p) && Agree(names, st.scope) && Ready(t, names)
    ensures Reached(StepN(alu, ch, At0(p, callee, st, []), n), n, ExecItems(alu, items, global, st, fuel),
                    p + ItemsLen(items, global, Extra(names, t)), t, callee, fuel)
    decreases fuel, items, 1
  {
    hide StepN, Step, Stack, At, ExprAt, StmtAt, StmtLen, Exec, ItemAt, ItemLen, ExecItem;
    var c := At0(p, callee, st, []);
    ZeroSteps(alu, ch, c);
    n := 0;
    match items
    case NoItems =>
    case MoreItems(head, tail) =>
      n := ItemRuns(alu, ch, head, global, names, t, p, callee, st, fuel);
      var r := ExecItem(alu, head, global, st, fuel);
      if r.Done? && r.flow.Normal? {
        var q := p + ItemLen(head, global, Extra(names, t));
        var k := ItemsRun(alu, ch, tail, global, Extend(names, head, global), t, q, callee, r.state, fuel);
        Chain(alu, ch, c, n, k, ExecItems(alu, tail, global, r.state, fuel),
              p + ItemsLen(items, global, Extra(names, t)), t, callee, fuel);
        n := n + k;
      }
  }

  lemma {:induction false} ItemRuns(alu: Alu, ch: Chunk, item: Item, global: bool, names: seq<string>, t: Target, p: nat,
                                    callee: Value, st: State, fuel: nat) returns (n: nat)
    requires ItemAt(ch, item, global, names, t, p) && Agree(names, st.scope) && Ready(t, names)
    ensures var r := ExecItem(alu, item, global, st, fuel);
            && Reached(StepN(alu, ch, At0(p, callee, st, []), n), n, r, p + ItemLen(item, global, Extra(names, t)), t,
                       callee, fuel)
            && (r.Done? && r.flow.Normal? ==> Agree(Extend(names, item, global), r.state.scope))
    decreases fuel, item, 1
  {
    hide StepN, Step, Stack, At, ExprAt, StmtAt, StmtLen, Exec;
    if item.Perform? {
      n := StmtRuns(alu, ch, item.s, names, t, p, callee, st, fuel);
      ExecAgrees(alu, item.s, names, st, fuel);
    } else {
      n := DeclareRuns(alu, ch, item, global, names, p, callee, st);
      if item.init.Some? { EvalAgrees(alu, item.init.value, names, st); }
    }
  }

  /** The value of an initialiser simply stays behind as the new variable's stack slot. */
  lemma DeclareRuns(alu: Alu, ch: Chunk, item: Item, global: bool, names: seq<string>, p: nat, callee: Value, st: State)
    returns (n: nat)
    requires item.Declare? && ItemAt(ch, item, global, names, NoLoop, p) && Agree(names, st.scope)
    ensures match ExecItem(alu, item, global, st, 0)
            case Crash(g) => StepN(alu, ch, At0(p, callee, st, []), n) == Faulted(g)
            case Done(_, st1) => StepN(alu, ch, At0(p, callee, st, []), n) == At0(p + ItemLen(item, global, 0), callee, st1, [])
            case _ => false
  {
    hide StepN, Step, ExprAt, Eval;
    var c := At0(p, callee, st, []);
    n := InitRuns(alu, ch, item.init, Nil, names, p, callee, st);
    var a := if item.init.Some? then Eval(alu, item.init.value, st) else Yields(Nil, st);
    if a.Yields? {
      var q := p + InitLen(item.init);
      if global {
        OneMore(alu, ch, c, n, DefineModule(ch.code[q + 1]));
        n := n + 1;
        assert Stack(callee, a.state.scope, [a.value]) == Stack(callee, a.state.scope, []) + [a.value];
      } else {
        var longer := a.state.scope + [Binding(item.name, a.value)];
        assert Stack(callee, a.state.scope, [a.value]) == Stack(callee, longer, []);
      }
    }
  }

  /** An optional expression, with a constant pushed in its absence. */
  lemma InitRuns(alu: Alu, ch: Chunk, init: Option<Expr>, default: Value, names: seq<string>, p: nat, callee: Value,
                 st: State) returns (n: nat)
    requires default == Nil || default == Bool(true)
    requires InitAt(ch, init, if default.Nil? then PushNil else PushTrue, names, p) && Agree(names, st.scope)
    ensures var a := if init.Some? then Eval(alu, init.value, st) else Yields(default, st);
            StepN(alu, ch, At0(p, callee, st, []), n) == After(a, p + InitLen(init), callee, [])
  {
    hide StepN, Step, Stack, ExprAt;
    if init.Some? {
      n := ExprRuns(alu, ch, init.value, names, p, callee, st, []);
    } else {
      var c := At0(p, callee, st, []);
      ZeroSteps(alu, ch, c);
      LiteralRuns(alu, ch, c, 0, default, p, callee, st, []);
      n := 1;
    }
  }

  // ---- loops ----

  /** A loop has no way out but its end: `break` has become falling through. */
  ghost predicate LoopDone(c: Config, n: nat, r: Outcome, q: nat, callee: Value, fuel: nat) {
    match r
    case Crash(g) => c == Faulted(g)
    case Timeout => c.Running? && fuel <= n
    case Wide(st, v, further) => Overfull(c, st, v, further, callee)
    case Done(flow, st) => flow.Normal? && c == At0(q, callee, st, [])
  }

  lemma ChainLoop(alu: Alu, ch: Chunk, c: Config, n: nat, k: nat, r: Outcome, q: nat, callee: Value, fuel: nat, more: nat)
    requires LoopDone(StepN(alu, ch, StepN(alu, ch, c, n), k), k, r, q, callee, fuel)
    requires more <= fuel + n
    ensures LoopDone(StepN(alu, ch, c, n + k), n + k, r, q, callee, more)
  {
    hide StepN, Step;
    StepsAdd(alu, ch, c, n, k);
  }

  lemma {:induction false} WhileRuns(alu: Alu, ch: Chunk, test: Option<Expr>, body: Stmt, names: seq<string>, p: nat,
                                     callee: Value, st: State, fuel: nat) returns (n: nat)
    requires WhileAt(ch, test, body, names, p) && Agree(names, st.scope)
    ensures LoopDone(StepN(alu, ch, At0(p, callee, st, []), n), n, ExecLoop(alu, test, None, body, st, fuel),
                     p + InitLen(test) + StmtLen(body, 0) + 8, callee, fuel)
    decreases fuel, body, 3
  {
    hide StepN, Step, Stack, At, ExprAt, StmtAt, StmtLen, Eval, Exec;
    var c := At0(p, callee, st, []);
    ZeroSteps(alu, ch, c);
    n := 0;
    if fuel > 0 {
      n := InitRuns(alu, ch, test, Bool(true), names, p, callee, st);
      if test.Some? { EvalAgrees(alu, test.value, names, st); }
      var a := if test.Some? then Eval(alu, test.value, st) else Yields(Bool(true), st);
      if a.Yields? {
        var q := p + InitLen(test);
        var m := q + 4 + StmtLen(body, 0);
        assert [] + [a.value] == [a.value];
        n := BranchRuns(alu, ch, c, n, q, m + 3 - (q + 3), callee, a.state, [], a.value);
        if IsFalsey(a.value) {
          PopRuns(alu, ch, c, n, m + 3, callee, a.state, [], a.value);
          n := n + 1;
        } else {
          n := WhileBodyRuns(alu, ch, test, body, names, p, callee, st, a.state, fuel, n);
        }
      }
    }
  }

  /** One iteration and everything after it; `m` steps have brought the machine to the body. */
  lemma {:induction false} WhileBodyRuns(alu: Alu, ch: Chunk, test: Option<Expr>, body: Stmt, names: seq<string>, p: nat,
                                         callee: Value, st: State, st1: State, fuel: nat, m: nat) returns (n: nat)
    requires WhileAt(ch, test, body, names, p) && Agree(names, st1.scope) && fuel > 0 && m > 0
    requires StepN(alu, ch, At0(p, callee, st, []), m) == At0(p + InitLen(test) + 4, callee, st1, [])
    ensures LoopDone(StepN(alu, ch, At0(p, callee, st, []), n), n, Iterate(alu, test, None, body, st1, fuel),
                     p + InitLen(test) + StmtLen(body, 0) + 8, callee, fuel)
    decreases fuel, body, 2
  {
    hide StepN, Step, Stack, At, ExprAt, StmtAt, StmtLen, Eval, Exec;
    var c := At0(p, callee, st, []);
    var b := p + InitLen(test) + 4;
    var e := b + StmtLen(body, 0);
    var t := InLoop(p, |names|, Some(e + 4));
    var k := StmtRuns(alu, ch, body, names, t, b, callee, st1, fuel);
    ExecAgrees(alu, body, names, st1, fuel);
    var r := Exec(alu, body, st1, fuel);
    Chain(alu, ch, c, m, k, r, e, t, callee, fuel);
    n := m + k;
    if r.Done? {
      ShrinkNone(r.state);
      if r.flow.Normal? {
        LoopRuns(alu, ch, c, n, e, e + 3 - p, callee, r.state);
        n := n + 1;
      }
      if !r.flow.Broke? {
        k := WhileRuns(alu, ch, test, body, names, p, callee, r.state, fuel - 1);
        ChainLoop(alu, ch, c, n, k, ExecLoop(alu, test, None, body, r.state, fuel - 1), e + 4, callee, fuel - 1, fuel);
        n := n + k;
      }
    }
  }

  lemma {:induction false} ForRuns(alu: Alu, ch: Chunk, test: Option<Expr>, step: Option<Expr>, body: Stmt,
                                   names: seq<string>, p: nat, callee: Value, st: State, fuel: nat) returns (n: nat)
    requires ForAt(ch, test, step, body, names, p) && Agree(names, st.scope)
    ensures LoopDone(StepN(alu, ch, At0(p, callee, st, []), n), n, ExecLoop(alu, test, step, body, st, fuel),
                     p + ForLen(test, step, body), callee, fuel)
    decreases fuel, body, 4
  {
    hide StepN, Step, Stack, At, ExprAt, StmtAt, StmtLen, Eval, Exec, Iterate;
    var c := At0(p, callee, st, []);
    ZeroSteps(alu, ch, c);
    n := 0;
    if fuel > 0 {
      var a := if test.Some? then Eval(alu, test.value, st) else Yields(Bool(true), st);
      n := ForTestRuns(alu, ch, test, step, body, names, p, callee, st);
      if test.Some? { EvalAgrees(alu, test.value, names, st); }
      if a.Yields? && !IsFalsey(a.value) {
        n := ForBodyRuns(alu, ch, test, step, body, names, p, callee, st, a.state, fuel, n);
      }
    }
  }

  /** The test of a `for`: on to the jump over the step, or out of the loop. */
  lemma ForTestRuns(alu: Alu, ch: Chunk, test: Option<Expr>, step: Option<Expr>, body: Stmt, names: seq<string>, p: nat,
                    callee: Value, st: State) returns (n: nat)
    requires ForAt(ch, test, step, body, names, p) && Agree(names, st.scope)
    ensures var a := if test.Some? then Eval(alu, test.value, st) else Yields(Bool(true), st);
            StepN(alu, ch, At0(p, callee, st, []), n) ==
              match a
              case Fault(g) => Faulted(g)
              case Yields(v, st1) =>
                if IsFalsey(v) then At0(p + ForLen(test, step, body), callee, st1, [])
                else At0(p + TestLen(test) + StepLen(step), callee, st1, [])
  {
    hide StepN, Step, Stack, At, ExprAt, StmtAt, StmtLen, Eval;
    var c := At0(p, callee, st, []);
    ZeroSteps(alu, ch, c);
    n := 0;
    var st1 := st;
    var q := p + TestLen(test);
    var b := q + StepLen(step);
    var m := b + StmtLen(body, 0);
    if test.Some? {
      n := ExprRuns(alu, ch, test.value, names, p, callee, st, []);
      var a := Eval(alu, test.value, st);
      if a.Yields? {
        var j := p + ExprLen(test.value);
        assert [] + [a.value] == [a.value];
        n := BranchRuns(alu, ch, c, n, j, m + 3 - (j + 3), callee, a.state, [], a.value);
        if IsFalsey(a.value) {
          PopRuns(alu, ch, c, n, m + 3, callee, a.state, [], a.value);
          n := n + 1;
        }
      }
      if a.Fault? || IsFalsey(a.value) { return; }
      st1 := a.state;
    }
    if step.Some? {
      JumpRuns(alu, ch, c, n, q, b - (q + 3), callee, st1, []);
      n := n + 1;
    }
  }

  /** One iteration of a `for` and everything after it. */
  lemma {:induction false} ForBodyRuns(alu: Alu, ch: Chunk, test: Option<Expr>, step: Option<Expr>, body: Stmt,
                                       names: seq<string>, p: nat, callee: Value, st: State, st1: State, fuel: nat,
                                       m: nat) returns (n: nat)
    requires ForAt(ch, test, step, body, names, p) && Agree(names, st1.scope) && fuel > 0
    requires StepN(alu, ch, At0(p, callee, st, []), m) == At0(p + TestLen(test) + StepLen(step), callee, st1, [])
    ensures LoopDone(StepN(alu, ch, At0(p, callee, st, []), n), n, Iterate(alu, test, step, body, st1, fuel),
                     p + ForLen(test, step, body), callee, fuel)
    decreases fuel, body, 3
  {
    hide StepN, Step, Stack, At, StmtAt, StmtLen, Eval, Exec, TestLen, StepLen, Overfull, ForAt, ForLen;
    var c := At0(p, callee, st, []);
    var b := p + TestLen(test) + StepLen(step);
    var e := b + StmtLen(body, 0);
    var back := if step.Some? then p + TestLen(test) + 3 else p;
    var t := InLoop(back, |names|, Some(p + ForLen(test, step, body)));
    ForBodyAt(ch, test, step, body, names, p);
    var k := StmtRuns(alu, ch, body, names, t, b, callee, st1, fuel);
    ExecAgrees(alu, body, names, st1, fuel);
    var r := Exec(alu, body, st1, fuel);
    Chain(alu, ch, c, m, k, r, e, t, callee, fuel);
    n := m + k;
    if r.Done? {
      ShrinkNone(r.state);
      if !r.flow.Broke? {
        n := ForTurnRuns(alu, ch, test, step, body, names, p, callee, c, r.state, r.flow.Normal?, n);
        var s := if step.Some? then Eval(alu, step.value, r.state) else Yields(Nil, r.state);
        if s.Yields? {
          if step.Some? { EvalAgrees(alu, step.value, names, r.state); }
          n := ForNextRuns(alu, ch, test, step, body, names, p, callee, c, s.state, fuel, n);
        }
      }
    }
  }

  lemma ForBodyAt(ch: Chunk, test: Option<Expr>, step: Option<Expr>, body: Stmt, names: seq<string>, p: nat)
    requires ForAt(ch, test, step, body, names, p)
    ensures var back := if step.Some? then p + TestLen(test) + 3 else p;
            StmtAt(ch, body, names, InLoop(back, |names|, Some(p + ForLen(test, step, body))),
                   p + TestLen(test) + StepLen(step))
  {
    hide StmtAt, At, ExprAt;
  }

  /** All further iterations. */
  lemma {:induction false} ForNextRuns(alu: Alu, ch: Chunk, test: Option<Expr>, step: Option<Expr>, body: Stmt,
                                       names: seq<string>, p: nat, callee: Value, c: Config, st: State, fuel: nat,
                                       m: nat) returns (n: nat)
    requires ForAt(ch, test, step, body, names, p) && Agree(names, st.scope) && fuel > 0 && m > 0
    requires StepN(alu, ch, c, m) == At0(p, callee, st, [])
    ensures LoopDone(StepN(alu, ch, c, n), n, ExecLoop(alu, test, step, body, st, fuel - 1), p + ForLen(test, step, body),
                     callee, fuel)
    decreases fuel, body, 2
  {
    hide *;
    var k := ForRuns(alu, ch, test, step, body, names, p, callee, st, fuel - 1);
    ChainLoop(alu, ch, c, m, k, ExecLoop(alu, test, step, body, st, fuel - 1), p + ForLen(test, step, body), callee,
              fuel - 1, fuel);
    n := m + k;
  }

  /** From the end of an iteration to the next test. */
  lemma ForStepRuns(alu: Alu, ch: Chunk, test: Option<Expr>, step: Option<Expr>, body: Stmt, names: seq<string>, p: nat,
                    callee: Value, c: Config, st: State, m: nat) returns (n: nat)
    requires ForAt(ch, test, step, body, names, p) && Agree(names, st.scope)
    requires StepN(alu, ch, c, m) == At0(if step.Some? then p + TestLen(test) + 3 else p, callee, st, [])
    ensures n >= m
    ensures var s := if step.Some? then Eval(alu, step.value, st) else Yields(Nil, st);
            StepN(alu, ch, c, n) == if s.Yields? then At0(p, callee, s.state, []) else Faulted(s.globals)
  {
    hide StepN, Step, Stack, At, ExprAt, StmtAt, StmtLen, Eval, TestLen;
    n := m;
    if step.Some? {
      var q := p + TestLen(test);
      var b := q + StepLen(step);
      var k := ExprRuns(alu, ch, step.value, names, q + 3, callee, st, []);
      Join(alu, ch, c, m, k);
      n := m + k;
      var s := Eval(alu, step.value, st);
      if s.Yields? {
        assert [] + [s.value] == [s.value];
        PopRuns(alu, ch, c, n, b - 4, callee, s.state, [], s.value);
        LoopRuns(alu, ch, c, n + 1, b - 3, b - p, callee, s.state);
        n := n + 2;
      }
    }
  }

  /** From the end of the body (`falls`) or from a `continue` to the next test. */
  lemma ForTurnRuns(alu: Alu, ch: Chunk, test: Option<Expr>, step: Option<Expr>, body: Stmt, names: seq<string>, p: nat,
                    callee: Value, c: Config, st: State, falls: bool, m: nat) returns (n: nat)
    requires ForAt(ch, test, step, body, names, p) && Agree(names, st.scope)
    requires StepN(alu, ch, c, m) ==
             At0(if falls then p + TestLen(test) + StepLen(step) + StmtLen(body, 0)
                 else if step.Some? then p + TestLen(test) + 3 else p, callee, st, [])
    ensures n >= m && (falls ==> n > m)
    ensures var s := if step.Some? then Eval(alu, step.value, st) else Yields(Nil, st);
            StepN(alu, ch, c, n) == if s.Yields? then At0(p, callee, s.state, []) else Faulted(s.globals)
  {
    hide StepN, Step, Stack, At, ExprAt, StmtAt, StmtLen, Eval, TestLen, StepLen;
    n := m;
    if falls {
      var e := p + TestLen(test) + StepLen(step) + StmtLen(body, 0);
      LoopRuns(alu, ch, c, n, e, e + 3 - (if step.Some? then p + TestLen(test) + 3 else p), callee, st);
      n := n + 1;
    }
    n := ForStepRuns(alu, ch, test, step, body, names, p, callee, c, st, n);
  }

  // ---- statements ----

  /** Every statement, in every state, with every amount of fuel: the machine gets to where the
      outcome says it must be. */
  lemma {:induction false} StmtRuns(alu: Alu, ch: Chunk, s: Stmt, names: seq<string>, t: Target, p: nat, callee: Value,
                                    st: State, fuel: nat) returns (n: nat)
    requires StmtAt(ch, s, names, t, p) && Agree(names, st.scope) && Ready(t, names)
    ensures Reached(StepN(alu, ch, At0(p, callee, st, []), n), n, Exec(alu, s, st, fuel),
                    p + StmtLen(s, Extra(names, t)), t, callee, fuel)
    decreases fuel, s, 1
  {
    hide StepN, Step, Stack, At, ExprAt, Eval;
    match s
    case Evaluate(_) => n := EvaluateRuns(alu, ch, s, names, t, p, callee, st, fuel);
    case Block(items) => n := BlockRuns(alu, ch, items, names, t, p, callee, st, fuel);
    case If(_, _, _) => n := IfRuns(alu, ch, s, names, t, p, callee, st, fuel);
    case While(test, body) => n := WhileRuns(alu, ch, test, body, names, p, callee, st, fuel);
    case For(_, _, _, _) => n := ForStatementRuns(alu, ch, s, names, t, p, callee, st, fuel);
    case Switch(_, _) => n := SwitchRuns(alu, ch, s, names, t, p, callee, st, fuel);
    case Break => n := LeaveRuns(alu, ch, s, names, t, p, callee, st);
    case Continue => n := LeaveRuns(alu, ch, s, names, t, p, callee, st);
  }

  lemma EvaluateRuns(alu: Alu, ch: Chunk, s: Stmt, names: seq<string>, t: Target, p: nat, callee: Value, st: State,
                     fuel: nat) returns (n: nat)
    requires s.Evaluate? && StmtAt(ch, s, names, t, p) && Agree(names, st.scope)
    ensures Reached(StepN(alu, ch, At0(p, callee, st, []), n), n, Exec(alu, s, st, fuel),
                    p + StmtLen(s, Extra(names, t)), t, callee, fuel)
  {
    hide StepN, Step, Stack, At, ExprAt, Eval;
    n := ExprRuns(alu, ch, s.e, names, p, callee, st, []);
    var a := Eval(alu, s.e, st);
    if a.Yields? {
      assert [] + [a.value] == [a.value];
      PopRuns(alu, ch, At0(p, callee, st, []), n, p + ExprLen(s.e), callee, a.state, [], a.value);
      n := n + 1;
    }
  }

  lemma {:induction false} SwitchRuns(alu: Alu, ch: Chunk, s: Stmt, names: seq<string>, t: Target, p: nat, callee: Value,
                                      st: State, fuel: nat) returns (n: nat)
    requires s.Switch? && StmtAt(ch, s, names, t, p) && Agree(names, st.scope) && Ready(t, names)
    ensures Reached(StepN(alu, ch, At0(p, callee, st, []), n), n, Exec(alu, s, st, fuel),
                    p + StmtLen(s, Extra(names, t)), t, callee, fuel)
    decreases fuel, s, 0
  {
    hide StepN, Step, Stack, At, ExprAt, Eval, ExecCases, CasesAt;
    n := ExprRuns(alu, ch, s.subject, names, p, callee, st, []);
    EvalAgrees(alu, s.subject, names, st);
    var a := Eval(alu, s.subject, st);
    if a.Yields? {
      assert [] + [a.value] == [a.value];
      var q := p + ExprLen(s.subject);
      var k := CasesRun(alu, ch, a.value, s.cases, names, t, q, callee, a.state, fuel);
      Chain(alu, ch, At0(p, callee, st, []), n, k, ExecCases(alu, a.value, s.cases, a.state, fuel),
            q + CasesLen(s.cases, Extra(names, t)), t, callee, fuel);
      n := n + k;
    }
  }

  /** `break` and `continue`: discard what the loop body declared, then jump. */
  lemma LeaveRuns(alu: Alu, ch: Chunk, s: Stmt, names: seq<string>, t: Target, p: nat, callee: Value, st: State)
    returns (n: nat)
    requires s.Break? || s.Continue?
    requires StmtAt(ch, s, names, t, p) && Agree(names, st.scope) && Ready(t, names)
    ensures 0 < n
    ensures StepN(alu, ch, At0(p, callee, st, []), n) ==
            At0(if s.Break? then t.exit.value else t.start, callee, Shrink(st, t.base), [])
  {
    hide StepN, Step, Stack, At;
    var c := At0(p, callee, st, []);
    ZeroSteps(alu, ch, c);
    var k := Extra(names, t);
    var q := p + k;
    PopsRun(alu, ch, c, 0, p, k, callee, st);
    var st1 := Shrink(st, t.base);
    if s.Break? {
      JumpRuns(alu, ch, c, k, q, t.exit.value - (q + 3), callee, st1, []);
    } else {
      LoopRuns(alu, ch, c, k, q, q + 3 - t.start, callee, st1);
    }
    n := k + 1;
  }

  lemma {:induction false} BlockRuns(alu: Alu, ch: Chunk, items: Items, names: seq<string>, t: Target, p: nat,
                                     callee: Value, st: State, fuel: nat) returns (n: nat)
    requires StmtAt(ch, Block(items), names, t, p) && Agree(names, st.scope) && Ready(t, names)
    ensures Reached(StepN(alu, ch, At0(p, callee, st, []), n), n, Exec(alu, Block(items), st, fuel),
                    p + StmtLen(Block(items), Extra(names, t)), t, callee, fuel)
    decreases fuel, items, 2
  {
    hide StepN, Step, Stack, At, ItemsAt, ExecItems;
    n := ItemsRun(alu, ch, items, false, names, t, p, callee, st, fuel);
    ItemsAgree(alu, items, false, names, st, fuel);
    var r := ExecItems(alu, items, false, st, fuel);
    var e := p + ItemsLen(items, false, Extra(names, t));
    n := DiscardRuns(alu, ch, names, t, At0(p, callee, st, []), e, Declared(items), callee, r, fuel, n);
  }

  /** The pops at the end of a scope; on other ways out the variables are gone already. */
  lemma DiscardRuns(alu: Alu, ch: Chunk, names: seq<string>, t: Target, c: Config, e: nat, k: nat, callee: Value,
                    r: Outcome, fuel: nat, m: nat) returns (n: nat)
    requires PopsAt(ch.code, e, k) && Ready(t, names)
    requires Reached(StepN(alu, ch, c, m), m, r, e, t, callee, fuel)
    requires r.Done? ==> |names| <= |r.state.scope|
    requires r.Done? && r.flow.Normal? ==> |r.state.scope| == |names| + k
    ensures Reached(StepN(alu, ch, c, n), n, Leave(r, |names|), e + k, t, callee, fuel)
  {
    hide StepN, Step, Stack, At;
    n := m;
    if r.Done? {
      if r.flow.Normal? {
        PopsRun(alu, ch, c, n, e, k, callee, r.state);
        n := n + k;
      } else {
        ShrinkTwice(r.state, |names|, t.base);
      }
    }
  }

  lemma {:induction false} IfRuns(alu: Alu, ch: Chunk, s: Stmt, names: seq<string>, t: Target, p: nat, callee: Value,
                                  st: State, fuel: nat) returns (n: nat)
    requires s.If? && StmtAt(ch, s, names, t, p) && Agree(names, st.scope) && Ready(t, names)
    ensures Reached(StepN(alu, ch, At0(p, callee, st, []), n), n, Exec(alu, s, st, fuel),
                    p + StmtLen(s, Extra(names, t)), t, callee, fuel)
    decreases fuel, s, 0
  {
    hide StepN, Step, Stack, At, ExprAt, Eval;
    n := ExprRuns(alu, ch, s.cond, names, p, callee, st, []);
    EvalAgrees(alu, s.cond, names, st);
    var a := Eval(alu, s.cond, st);
    if a.Yields? {
      var c := At0(p, callee, st, []);
      var q := p + ExprLen(s.cond);
      var m := q + 4 + StmtLen(s.yes, Extra(names, t));
      assert [] + [a.value] == [a.value];
      n := BranchRuns(alu, ch, c, n, q, m + 3 - (q + 3), callee, a.state, [], a.value);
      if IsFalsey(a.value) {
        n := ElseRuns(alu, ch, c, s, names, t, p, callee, a.state, a.value, fuel, n);
      } else {
        n := ThenRuns(alu, ch, c, s, names, t, p, callee, a.state, fuel, n);
      }
    }
  }

  lemma {:induction false} ThenRuns(alu: Alu, ch: Chunk, c: Config, s: Stmt, names: seq<string>, t: Target, p: nat,
                                    callee: Value, st: State, fuel: nat, m: nat) returns (n: nat)
    requires s.If? && StmtAt(ch, s, names, t, p) && Agree(names, st.scope) && Ready(t, names)
    requires StepN(alu, ch, c, m) == At0(p + ExprLen(s.cond) + 4, callee, st, [])
    ensures Reached(StepN(alu, ch, c, n), n, Exec(alu, s.yes, st, fuel), p + StmtLen(s, Extra(names, t)), t, callee, fuel)
    decreases fuel, s.yes, 2
  {
    hide StepN, Step, Stack, At, ExprAt, Eval, Exec;
    var q := p + ExprLen(s.cond) + 4;
    var e := q + StmtLen(s.yes, Extra(names, t));
    var k := StmtRuns(alu, ch, s.yes, names, t, q, callee, st, fuel);
    var r := Exec(alu, s.yes, st, fuel);
    Chain(alu, ch, c, m, k, r, e, t, callee, fuel);
    n := m + k;
    if r.Done? && r.flow.Normal? {
      JumpRuns(alu, ch, c, n, e, p + StmtLen(s, Extra(names, t)) - (e + 3), callee, r.state, []);
      n := n + 1;
    }
  }

  lemma {:induction false} ElseRuns(alu: Alu, ch: Chunk, c: Config, s: Stmt, names: seq<string>, t: Target, p: nat,
                                    callee: Value, st: State, v: Value, fuel: nat, m: nat) returns (n: nat)
    requires s.If? && StmtAt(ch, s, names, t, p) && Agree(names, st.scope) && Ready(t, names)
    requires StepN(alu, ch, c, m) == At0(p + ExprLen(s.cond) + 4 + StmtLen(s.yes, Extra(names, t)) + 3, callee, st, [v])
    ensures Reached(StepN(alu, ch, c, n), n,
                    if s.no.Some? then Exec(alu, s.no.value, st, fuel) else Done(Normal, st),
                    p + StmtLen(s, Extra(names, t)), t, callee, fuel)
    decreases fuel, s.no, 2
  {
    hide StepN, Step, Stack, At, ExprAt, Eval, Exec;
    var q := p + ExprLen(s.cond) + 4 + StmtLen(s.yes, Extra(names, t)) + 3;
    assert [] + [v] == [v];
    PopRuns(alu, ch, c, m, q, callee, st, [], v);
    n := m + 1;
    if s.no.Some? {
      var k := StmtRuns(alu, ch, s.no.value, names, t, q + 1, callee, st, fuel);
      Chain(alu, ch, c, n, k, Exec(alu, s.no.value, st, fuel), p + StmtLen(s, Extra(names, t)), t, callee, fuel);
      n := n + k;
    }
  }

  lemma {:induction false} ForStatementRuns(alu: Alu, ch: Chunk, s: Stmt, names: seq<string>, t: Target, p: nat,
                                            callee: Value, st: State, fuel: nat) returns (n: nat)
    requires s.For? && StmtAt(ch, s, names, t, p) && Agree(names, st.scope) && Ready(t, names)
    ensures Reached(StepN(alu, ch, At0(p, callee, st, []), n), n, Exec(alu, s, st, fuel),
                    p + StmtLen(s, Extra(names, t)), t, callee, fuel)
    decreases fuel, s, 0
  {
    hide StepN, Step, Stack, At, ItemsAt, ExecItems, ExecLoop, ForAt;
    var c := At0(p, callee, st, []);
    var q := p + ItemsLen(s.init, false, Extra(names, t));
    var all := ExtendAll(names, s.init, false);
    var e := q + ForLen(s.test, s.step, s.body);
    n := ItemsRun(alu, ch, s.init, false, names, t, p, callee, st, fuel);
    ItemsAgree(alu, s.init, false, names, st, fuel);
    var r := ExecItems(alu, s.init, false, st, fuel);
    if r.Done? && r.flow.Normal? {
      var k := ForRuns(alu, ch, s.test, s.step, s.body, all, q, callee, r.state, fuel);
      LoopAgrees(alu, s.test, s.step, s.body, all, r.state, fuel);
      r := ExecLoop(alu, s.test, s.step, s.body, r.state, fuel);
      Chain(alu, ch, c, n, k, r, e, t, callee, fuel);
      n := n + k;
    }
    n := DiscardRuns(alu, ch, names, t, c, e, Declared(s.init), callee, r, fuel, n);
  }

  // ---- whole programs ----

  /** What a run of a program must come to: an empty stack and the final globals, a runtime
      error with the globals at that point, or, without end, ever more steps. */
  ghost predicate Answers(c: Config, n: nat, r: Outcome, callee: Value, fuel: nat) {
    match r
    case Done(flow, st) => flow.Normal? && st.scope == [] && c == Halted([], st.globals)
    case Crash(g) => c == Faulted(g)
    case Timeout => c.Running? && fuel <= n
    case Wide(st, v, further) => Overfull(c, st, v, further, callee)
  }

  lemma ProgramRuns(alu: Alu, ch: Chunk, program: Items, callee: Value, globals: map<string, Value>, fuel: nat)
    returns (n: nat)
    requires ProgramAt(ch, program)
    ensures Answers(StepN(alu, ch, Running(0, [callee], globals), n), n,
                    ExecItems(alu, program, true, State([], globals), fuel), callee, fuel)
  {
    hide StepN, Step, Fetch, At, ItemsAt, ExecItems;
    var st := State([], globals);
    var c := Running(0, [callee], globals);
    assert c == At0(0, callee, st, []);
    n := ItemsRun(alu, ch, program, true, [], NoLoop, 0, callee, st, fuel);
    ItemsAgree(alu, program, true, [], st, fuel);
    var r := ExecItems(alu, program, true, st, fuel);
    if r.Done? {
      OneMore(alu, ch, c, n, PushNil);
      OneMore(alu, ch, c, n + 1, Return);
      n := n + 2;
    }
  }
}
