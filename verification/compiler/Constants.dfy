/** Constants in a run: where it stores to one, and that an accepted program never does. */
module Constants {
  import opened Options
  import opened Values
  import opened Language
  import opened Semantics
  import opened Layout
  import opened ExprPreservation
  import opened Preservation
  import opened Limits
  import opened Acceptance

  function Names(decls: seq<Decl>): (r: seq<string>)
    ensures |r| == |decls| && forall i :: 0 <= i < |r| ==> r[i] == decls[i].name
  {
    seq(|decls|, i requires 0 <= i < |decls| => decls[i].name)
  }

  // ---- what a run stores to ----

  /** Storing to `name` overwrites what a constant declaration made: one of the variables in scope, which are `decls`, or a
      global one. */
  predicate Hits(st: State, decls: seq<Decl>, fixed: set<string>, name: string) {
    var i := Innermost(st.scope, name);
    if 0 <= i then i < |decls| && decls[i].constant else name in fixed
  }

  predicate ExprStores(alu: Alu, e: Expr, st: State, decls: seq<Decl>, fixed: set<string>) {
    match e
    case Literal(_) => false
    case Variable(_) => false
    case Assign(name, rhs) =>
      ExprStores(alu, rhs, st, decls, fixed) || (Eval(alu, rhs, st).Yields? && Hits(Eval(alu, rhs, st).state, decls, fixed, name))
    case Not(e1) => ExprStores(alu, e1, st, decls, fixed)
    case Negate(e1) => ExprStores(alu, e1, st, decls, fixed)
    case Binary(_, l, r) => ExprStores(alu, l, st, decls, fixed) || (Eval(alu, l, st).Yields? && ExprStores(alu, r, Eval(alu, l, st).state, decls, fixed))
    case And(l, r) => ExprStores(alu, l, st, decls, fixed) || (Eval(alu, l, st).Yields? && ExprStores(alu, r, Eval(alu, l, st).state, decls, fixed))
    case Or(l, r) => ExprStores(alu, l, st, decls, fixed) || (Eval(alu, l, st).Yields? && ExprStores(alu, r, Eval(alu, l, st).state, decls, fixed))
    case Ternary(c, yes, no) =>
      ExprStores(alu, c, st, decls, fixed) ||
      (Eval(alu, c, st).Yields? &&
        var a := Eval(alu, c, st);
        ExprStores(alu, if IsFalsey(a.value) then no else yes, a.state, decls, fixed))
  }

  predicate InitStores(alu: Alu, init: Option<Expr>, st: State, decls: seq<Decl>, fixed: set<string>) {
    init.Some? && ExprStores(alu, init.value, st, decls, fixed)
  }

  predicate StmtStores(alu: Alu, s: Stmt, st: State, decls: seq<Decl>, fixed: set<string>, fuel: nat)
    decreases fuel, s, 1
  {
    match s
    case Evaluate(e) => ExprStores(alu, e, st, decls, fixed)
    case Block(items) => ItemsStore(alu, items, st, decls, fixed, fuel)
    case If(c, yes, no) =>
      ExprStores(alu, c, st, decls, fixed) ||
      (Eval(alu, c, st).Yields? &&
        var a := Eval(alu, c, st);
        if !IsFalsey(a.value) then StmtStores(alu, yes, a.state, decls, fixed, fuel)
        else no.Some? && StmtStores(alu, no.value, a.state, decls, fixed, fuel))
    case While(test, body) => LoopStores(alu, test, None, body, st, decls, fixed, fuel)
    case For(init, test, step, body) =>
      ItemsStore(alu, init, st, decls, fixed, fuel) ||
      (var r := ExecItems(alu, init, false, st, fuel);
       r.Done? && r.flow.Normal? && LoopStores(alu, test, step, body, r.state, With(decls, init), fixed, fuel))
    case Switch(subject, cases) =>
      ExprStores(alu, subject, st, decls, fixed) ||
      (Eval(alu, subject, st).Yields? &&
        var a := Eval(alu, subject, st); CasesStore(alu, a.value, cases, a.state, decls, fixed, fuel))
    case Break => false
    case Continue => false
  }

  predicate CasesStore(alu: Alu, v: Value, cases: Cases, st: State, decls: seq<Decl>, fixed: set<string>, fuel: nat)
    decreases fuel, cases, 1
  {
    match cases
    case Otherwise(default) => default.Some? && StmtStores(alu, default.value, st, decls, fixed, fuel)
    case MoreCases(first, more, body, rest) =>
      AnyStores(alu, v, first, more, st, decls, fixed) ||
      (var hit := EvalAny(alu, v, first, more, st);
       hit.Yields? && Count(more) < LABEL_LIMIT &&
         if hit.value == Bool(true) then StmtStores(alu, body, hit.state, decls, fixed, fuel)
         else CasesStore(alu, v, rest, hit.state, decls, fixed, fuel))
  }

  predicate AnyStores(alu: Alu, v: Value, first: Expr, more: Exprs, st: State, decls: seq<Decl>, fixed: set<string>)
    decreases more
  {
    ExprStores(alu, first, st, decls, fixed) ||
    (Eval(alu, first, st).Yields? && more.MoreExprs? && AnyStores(alu, v, more.head, more.tail, Eval(alu, first, st).state, decls, fixed))
  }

  /** What the test, the body, the step and all further rounds store to. */
  predicate LoopStores(alu: Alu, test: Option<Expr>, step: Option<Expr>, body: Stmt, st: State, decls: seq<Decl>, fixed: set<string>, fuel: nat)
    decreases fuel, body, 3
  {
    fuel > 0 &&
    (InitStores(alu, test, st, decls, fixed) ||
     (var v := if test.Some? then Eval(alu, test.value, st) else Yields(Bool(true), st);
      v.Yields? && !IsFalsey(v.value) &&
        (StmtStores(alu, body, v.state, decls, fixed, fuel) ||
         (var r := Exec(alu, body, v.state, fuel);
          r.Done? && !r.flow.Broke? &&
            (InitStores(alu, step, r.state, decls, fixed) ||
             (var w := if step.Some? then Eval(alu, step.value, r.state) else Yields(Nil, r.state);
              w.Yields? && LoopStores(alu, test, step, body, w.state, decls, fixed, fuel - 1)))))))
  }

  predicate ItemsStore(alu: Alu, items: Items, st: State, decls: seq<Decl>, fixed: set<string>, fuel: nat)
    decreases fuel, items, 1
  {
    match items
    case NoItems => false
    case MoreItems(Declare(name, init, constant), tail) =>
      InitStores(alu, init, st, decls, fixed) ||
      (var r := ExecItem(alu, items.head, false, st, fuel);
       r.Done? && ItemsStore(alu, tail, r.state, decls + [Decl(name, constant)], fixed, fuel))
    case MoreItems(Perform(s), tail) =>
      StmtStores(alu, s, st, decls, fixed, fuel) ||
      (var r := Exec(alu, s, st, fuel);
       r.Done? && r.flow.Normal? && ItemsStore(alu, tail, r.state, decls, fixed, fuel))
  }

  predicate ProgramStores(alu: Alu, items: Items, st: State, fixed: set<string>, fuel: nat)
    decreases items
  {
    match items
    case NoItems => false
    case MoreItems(Declare(name, init, constant), tail) =>
      InitStores(alu, init, st, [], fixed) ||
      (var r := ExecItem(alu, items.head, true, st, fuel);
       r.Done? && ProgramStores(alu, tail, r.state, if constant then fixed + {name} else fixed, fuel))
    case MoreItems(Perform(s), tail) =>
      StmtStores(alu, s, st, [], fixed, fuel) ||
      (var r := Exec(alu, s, st, fuel);
       r.Done? && r.flow.Normal? && ProgramStores(alu, tail, r.state, fixed, fuel))
  }

  // ---- a proper program stores to no constant ----

  lemma NeverHits(st: State, decls: seq<Decl>, fixed: set<string>, name: string)
    requires Agree(Names(decls), st.scope) && Assignable(decls, fixed, name)
    ensures !Hits(st, decls, fixed, name)
  {
    var i := Innermost(st.scope, name);
    if 0 <= i {
      assert decls[i].name == name;
      forall j | i < j < |decls|
        ensures decls[j].name != name
      {
        assert st.scope[j].name != name;
      }
    } else {
      forall j | 0 <= j < |decls|
        ensures decls[j].name != name
      {
        assert st.scope[j].name != name;
      }
    }
  }

  lemma {:induction false} ExprSpares(alu: Alu, e: Expr, st: State, decls: seq<Decl>, fixed: set<string>)
    requires Agree(Names(decls), st.scope) && ProperExpr(e, decls, fixed)
    ensures !ExprStores(alu, e, st, decls, fixed)
    decreases e, 1
  {
    hide Hits, Assignable, Agree;
    match e
    case Literal(_) =>
    case Variable(_) =>
    case Assign(name, rhs) =>
      ExprSpares(alu, rhs, st, decls, fixed);
      EvalAgrees(alu, rhs, Names(decls), st);
      if Eval(alu, rhs, st).Yields? { NeverHits(Eval(alu, rhs, st).state, decls, fixed, name); }
    case Not(e1) => ExprSpares(alu, e1, st, decls, fixed);
    case Negate(e1) => ExprSpares(alu, e1, st, decls, fixed);
    case Binary(_, l, r) => PairSpares(alu, e, l, r, st, decls, fixed);
    case And(l, r) => PairSpares(alu, e, l, r, st, decls, fixed);
    case Or(l, r) => PairSpares(alu, e, l, r, st, decls, fixed);
    case Ternary(c, yes, no) =>
      PairSpares(alu, e, c, yes, st, decls, fixed);
      PairSpares(alu, e, c, no, st, decls, fixed);
  }

  lemma {:induction false} PairSpares(alu: Alu, e: Expr, l: Expr, r: Expr, st: State, decls: seq<Decl>, fixed: set<string>)
    requires l < e && r < e && Agree(Names(decls), st.scope) && ProperExpr(l, decls, fixed) && ProperExpr(r, decls, fixed)
    ensures !ExprStores(alu, l, st, decls, fixed)
    ensures Eval(alu, l, st).Yields? ==> !ExprStores(alu, r, Eval(alu, l, st).state, decls, fixed)
    decreases e, 0
  {
    hide Agree, ExprStores, ProperExpr, Eval;
    ExprSpares(alu, l, st, decls, fixed);
    EvalAgrees(alu, l, Names(decls), st);
    if Eval(alu, l, st).Yields? { ExprSpares(alu, r, Eval(alu, l, st).state, decls, fixed); }
  }

  lemma InitSpares(alu: Alu, init: Option<Expr>, st: State, decls: seq<Decl>, fixed: set<string>)
    requires Agree(Names(decls), st.scope) && ProperInit(init, decls, fixed)
    ensures !InitStores(alu, init, st, decls, fixed)
  {
    if init.Some? { ExprSpares(alu, init.value, st, decls, fixed); }
  }

  lemma {:induction false} StmtSpares(alu: Alu, s: Stmt, st: State, decls: seq<Decl>, fixed: set<string>, looping: bool, fuel: nat)
    requires Agree(Names(decls), st.scope) && ProperStmt(s, decls, fixed, looping)
    ensures !StmtStores(alu, s, st, decls, fixed, fuel)
    decreases fuel, s, 1
  {
    hide Agree, ExprStores, ProperExpr, Eval, ProperItems, ItemsStore, LoopStores, CasesStore, ProperCases;
    match s
    case Evaluate(e) => ExprSpares(alu, e, st, decls, fixed);
    case Block(items) => ItemsSpare(alu, items, st, decls, |decls|, fixed, looping, fuel);
    case If(c, yes, no) =>
      ExprSpares(alu, c, st, decls, fixed);
      EvalAgrees(alu, c, Names(decls), st);
      var a := Eval(alu, c, st);
      if a.Yields? {
        StmtSpares(alu, yes, a.state, decls, fixed, looping, fuel);
        if no.Some? { StmtSpares(alu, no.value, a.state, decls, fixed, looping, fuel); }
      }
    case While(test, body) => LoopSpares(alu, test, None, body, st, decls, fixed, fuel);
    case For(init, test, step, body) =>
      ItemsSpare(alu, init, st, decls, |decls|, fixed, looping, fuel);
      var r := ExecItems(alu, init, false, st, fuel);
      ItemsAgree(alu, init, false, Names(decls), st, fuel);
      NamesWith(decls, init);
      if r.Done? && r.flow.Normal? { LoopSpares(alu, test, step, body, r.state, With(decls, init), fixed, fuel); }
    case Switch(subject, cases) =>
      ExprSpares(alu, subject, st, decls, fixed);
      EvalAgrees(alu, subject, Names(decls), st);
      var a := Eval(alu, subject, st);
      if a.Yields? { CasesSpare(alu, a.value, cases, a.state, decls, fixed, looping, fuel); }
    case Break =>
    case Continue =>
  }

  lemma {:induction false} NamesWith(decls: seq<Decl>, items: Items)
    ensures Names(With(decls, items)) == ExtendAll(Names(decls), items, false)
    decreases items
  {
    if items.MoreItems? {
      match items.head
      case Declare(name, _, constant) =>
        assert Names(decls + [Decl(name, constant)]) == Names(decls) + [name];
        NamesWith(decls + [Decl(name, constant)], items.tail);
      case Perform(_) => NamesWith(decls, items.tail);
    }
  }

  lemma {:induction false} CasesSpare(alu: Alu, v: Value, cases: Cases, st: State, decls: seq<Decl>, fixed: set<string>,
      looping: bool, fuel: nat)
    requires Agree(Names(decls), st.scope) && ProperCases(cases, decls, fixed, looping)
    ensures !CasesStore(alu, v, cases, st, decls, fixed, fuel)
    decreases fuel, cases, 1
  {
    hide Agree, ExprStores, ProperExpr, Eval, EvalAny, AnyStores, ProperStmt, StmtStores, Exec;
    match cases
    case Otherwise(default) => if default.Some? { StmtSpares(alu, default.value, st, decls, fixed, looping, fuel); }
    case MoreCases(first, more, body, rest) =>
      AnySpares(alu, v, first, more, st, decls, fixed);
      AnyAgrees(alu, v, first, more, Names(decls), st);
      var hit := EvalAny(alu, v, first, more, st);
      if hit.Yields? {
        StmtSpares(alu, body, hit.state, decls, fixed, looping, fuel);
        CasesSpare(alu, v, rest, hit.state, decls, fixed, looping, fuel);
      }
  }

  lemma {:induction false} AnySpares(alu: Alu, v: Value, first: Expr, more: Exprs, st: State, decls: seq<Decl>, fixed: set<string>)
    requires Agree(Names(decls), st.scope) && ProperExpr(first, decls, fixed) && ProperExprs(more, decls, fixed)
    ensures !AnyStores(alu, v, first, more, st, decls, fixed)
    decreases more
  {
    hide Agree, ExprStores, ProperExpr, Eval;
    ExprSpares(alu, first, st, decls, fixed);
    EvalAgrees(alu, first, Names(decls), st);
    if Eval(alu, first, st).Yields? && more.MoreExprs? {
      AnySpares(alu, v, more.head, more.tail, Eval(alu, first, st).state, decls, fixed);
    }
  }

  lemma {:induction false} LoopSpares(alu: Alu, test: Option<Expr>, step: Option<Expr>, body: Stmt, st: State, decls: seq<Decl>,
      fixed: set<string>, fuel: nat)
    requires Agree(Names(decls), st.scope)
    requires ProperInit(test, decls, fixed) && ProperInit(step, decls, fixed) && ProperStmt(body, decls, fixed, true)
    ensures !LoopStores(alu, test, step, body, st, decls, fixed, fuel)
    decreases fuel, body, 2
  {
    hide Agree, InitStores, ProperInit, Eval, ProperStmt, StmtStores, Exec;
    if fuel > 0 {
      InitSpares(alu, test, st, decls, fixed);
      if test.Some? { EvalAgrees(alu, test.value, Names(decls), st); }
      var v := if test.Some? then Eval(alu, test.value, st) else Yields(Bool(true), st);
      if v.Yields? && !IsFalsey(v.value) {
        StmtSpares(alu, body, v.state, decls, fixed, true, fuel);
        ExecAgrees(alu, body, Names(decls), v.state, fuel);
        var r := Exec(alu, body, v.state, fuel);
        if r.Done? && !r.flow.Broke? {
          InitSpares(alu, step, r.state, decls, fixed);
          if step.Some? { EvalAgrees(alu, step.value, Names(decls), r.state); }
          var w := if step.Some? then Eval(alu, step.value, r.state) else Yields(Nil, r.state);
          if w.Yields? { LoopSpares(alu, test, step, body, w.state, decls, fixed, fuel - 1); }
        }
      }
    }
  }

  lemma {:induction false} ItemsSpare(alu: Alu, items: Items, st: State, decls: seq<Decl>, own: nat, fixed: set<string>, looping: bool,
      fuel: nat)
    requires Agree(Names(decls), st.scope) && ProperItems(items, decls, own, fixed, looping)
    ensures !ItemsStore(alu, items, st, decls, fixed, fuel)
    decreases fuel, items, 1
  {
    hide Agree, InitStores, ProperInit, Eval, ProperStmt, StmtStores, Exec, Occurs;
    match items
    case NoItems =>
    case MoreItems(Declare(name, init, constant), tail) =>
      InitSpares(alu, init, st, decls, fixed);
      DeclareAgrees(alu, name, init, constant, decls, st, fuel);
      var r := ExecItem(alu, items.head, false, st, fuel);
      if r.Done? { ItemsSpare(alu, tail, r.state, decls + [Decl(name, constant)], own, fixed, looping, fuel); }
    case MoreItems(Perform(s), tail) =>
      StmtSpares(alu, s, st, decls, fixed, looping, fuel);
      ExecAgrees(alu, s, Names(decls), st, fuel);
      var r := Exec(alu, s, st, fuel);
      if r.Done? && r.flow.Normal? { ItemsSpare(alu, tail, r.state, decls, own, fixed, looping, fuel); }
  }

  lemma DeclareAgrees(alu: Alu, name: Name, init: Option<Expr>, constant: bool, decls: seq<Decl>, st: State, fuel: nat)
    requires Agree(Names(decls), st.scope)
    ensures var r := ExecItem(alu, Declare(name, init, constant), false, st, fuel);
            r.Done? ==> r.flow.Normal? && Agree(Names(decls + [Decl(name, constant)]), r.state.scope)
  {
    hide Eval;
    if init.Some? { EvalAgrees(alu, init.value, Names(decls), st); }
  }

  lemma {:induction false} ProgramSpares(alu: Alu, items: Items, st: State, fixed: set<string>, fuel: nat)
    requires st.scope == [] && ProperProgram(items, fixed)
    ensures !ProgramStores(alu, items, st, fixed, fuel)
    decreases items
  {
    hide InitStores, ProperInit, Eval, ProperStmt, StmtStores, Exec;
    assert Agree(Names([]), st.scope);
    match items
    case NoItems =>
    case MoreItems(Declare(name, init, constant), tail) =>
      InitSpares(alu, init, st, [], fixed);
      if init.Some? { EvalAgrees(alu, init.value, Names([]), st); }
      var r := ExecItem(alu, items.head, true, st, fuel);
      if r.Done? { ProgramSpares(alu, tail, r.state, if constant then fixed + {name} else fixed, fuel); }
    case MoreItems(Perform(s), tail) =>
      StmtSpares(alu, s, st, [], fixed, false, fuel);
      ExecAgrees(alu, s, Names([]), st, fuel);
      var r := Exec(alu, s, st, fuel);
      if r.Done? && r.flow.Normal? { ProgramSpares(alu, tail, r.state, fixed, fuel); }
  }

  /** In no run of a program that compiles, however long, is anything stored to what a constant declaration made. */
  lemma NeverStored(alu: Alu, program: Items, g0: map<string, Value>, fuel: nat)
    requires Proper(program)
    ensures !ProgramStores(alu, program, State([], g0), {}, fuel)
  {
    hide ProgramStores, ProperProgram;
    ProgramSpares(alu, program, State([], g0), {}, fuel);
  }

  // ---- what is not stored to keeps its value ----

  predicate GlobalsSame(a: map<string, Value>, b: map<string, Value>, fixed: set<string>) {
    forall x :: x in fixed ==> (x in a <==> x in b) && (x in a && x in b ==> a[x] == b[x])
  }

  /** The constants among `decls` and `fixed` have the values they had. */
  predicate Same(a: State, b: State, decls: seq<Decl>, fixed: set<string>) {
    && |decls| <= |a.scope| && |decls| <= |b.scope|
    && (forall i :: 0 <= i < |decls| && decls[i].constant ==> b.scope[i] == a.scope[i])
    && GlobalsSame(a.globals, b.globals, fixed)
  }

  predicate Keeps(st: State, r: Outcome, decls: seq<Decl>, fixed: set<string>) {
    match r
    case Done(_, st1) => Same(st, st1, decls, fixed)
    case Crash(g) => GlobalsSame(st.globals, g, fixed)
    case Timeout => true
    case Wide(st1, _, _) => Same(st, st1, decls, fixed)
  }

  predicate Evaluates(st: State, r: Evaluation, decls: seq<Decl>, fixed: set<string>) {
    match r
    case Yields(_, st1) => Same(st, st1, decls, fixed)
    case Fault(g) => GlobalsSame(st.globals, g, fixed)
  }

  lemma SameBoth(a: State, b: State, c: State, decls: seq<Decl>, fixed: set<string>)
    requires Same(a, b, decls, fixed) && Same(b, c, decls, fixed)
    ensures Same(a, c, decls, fixed)
  {
  }

  lemma KeepsBoth(a: State, b: State, r: Outcome, decls: seq<Decl>, fixed: set<string>)
    requires Same(a, b, decls, fixed) && Keeps(b, r, decls, fixed)
    ensures Keeps(a, r, decls, fixed)
  {
  }

  lemma EvaluatesBoth(a: State, b: State, r: Evaluation, decls: seq<Decl>, fixed: set<string>)
    requires Same(a, b, decls, fixed) && Evaluates(b, r, decls, fixed)
    ensures Evaluates(a, r, decls, fixed)
  {
  }

  lemma SameSelf(st: State, decls: seq<Decl>, fixed: set<string>)
    requires Agree(Names(decls), st.scope)
    ensures Same(st, st, decls, fixed)
  {
  }

  lemma StoreKeeps(st: State, decls: seq<Decl>, fixed: set<string>, name: string, v: Value)
    requires Agree(Names(decls), st.scope) && !Hits(st, decls, fixed, name)
    ensures Evaluates(st, Store(name, v, st), decls, fixed)
  {
  }

  lemma {:induction false} ExprKeeps(alu: Alu, e: Expr, st: State, decls: seq<Decl>, fixed: set<string>)
    requires Agree(Names(decls), st.scope) && !ExprStores(alu, e, st, decls, fixed)
    ensures Evaluates(st, Eval(alu, e, st), decls, fixed)
    decreases e, 1
  {
    hide Hits, Agree, Evaluates, Same;
    match e
    case Literal(v) => LeafKeeps(alu, e, st, decls, fixed);
    case Variable(name) => LeafKeeps(alu, e, st, decls, fixed);
    case Assign(_, _) => AssignKeeps(alu, e, st, decls, fixed);
    case Not(e1) => UnaryKeeps(alu, e, e1, st, decls, fixed);
    case Negate(e1) => UnaryKeeps(alu, e, e1, st, decls, fixed);
    case Binary(_, l, r) => PairKeeps(alu, e, l, r, st, decls, fixed);
    case And(l, r) => PairKeeps(alu, e, l, r, st, decls, fixed);
    case Or(l, r) => PairKeeps(alu, e, l, r, st, decls, fixed);
    case Ternary(c, yes, no) =>
      var a := Eval(alu, c, st);
      PairKeeps(alu, e, c, if a.Yields? && IsFalsey(a.value) then no else yes, st, decls, fixed);
  }

  lemma {:induction false} UnaryKeeps(alu: Alu, e: Expr, e1: Expr, st: State, decls: seq<Decl>, fixed: set<string>)
    requires (e == Not(e1) || e == Negate(e1)) && Agree(Names(decls), st.scope) && !ExprStores(alu, e, st, decls, fixed)
    ensures Evaluates(st, Eval(alu, e, st), decls, fixed)
    decreases e, 0
  {
    hide Agree, Evaluates;
    ExprKeeps(alu, e1, st, decls, fixed);
    ResultKeeps(st, Eval(alu, e1, st), decls, fixed);
  }

  lemma {:induction false} AssignKeeps(alu: Alu, e: Expr, st: State, decls: seq<Decl>, fixed: set<string>)
    requires e.Assign? && Agree(Names(decls), st.scope) && !ExprStores(alu, e, st, decls, fixed)
    ensures Evaluates(st, Eval(alu, e, st), decls, fixed)
    decreases e, 0
  {
    hide Hits, Agree, Store, Evaluates;
    ExprKeeps(alu, e.rhs, st, decls, fixed);
    EvalAgrees(alu, e.rhs, Names(decls), st);
    var a := Eval(alu, e.rhs, st);
    if a.Yields? {
      StoreKeeps(a.state, decls, fixed, e.name, a.value);
      YieldsIs(st, a, decls, fixed);
      EvaluatesBoth(st, a.state, Store(e.name, a.value, a.state), decls, fixed);
    }
  }

  lemma LeafKeeps(alu: Alu, e: Expr, st: State, decls: seq<Decl>, fixed: set<string>)
    requires (e.Literal? || e.Variable?) && Agree(Names(decls), st.scope)
    ensures Evaluates(st, Eval(alu, e, st), decls, fixed)
  {
    SameSelf(st, decls, fixed);
  }

  lemma YieldsIs(st: State, r: Evaluation, decls: seq<Decl>, fixed: set<string>)
    requires Evaluates(st, r, decls, fixed)
    ensures r.Yields? ==> Same(st, r.state, decls, fixed)
  {
  }

  /** Whatever is made of the value. */
  lemma ResultKeeps(st: State, r: Evaluation, decls: seq<Decl>, fixed: set<string>)
    requires Evaluates(st, r, decls, fixed)
    ensures r.Yields? ==> (forall v :: Evaluates(st, Result(v, r.state), decls, fixed)) && forall w :: Evaluates(st, Yields(w, r.state), decls, fixed)
  {
  }

  lemma {:induction false} PairKeeps(alu: Alu, e: Expr, l: Expr, r: Expr, st: State, decls: seq<Decl>, fixed: set<string>)
    requires l < e && r < e && Agree(Names(decls), st.scope) && !ExprStores(alu, l, st, decls, fixed)
    ensures var a := Eval(alu, l, st);
            && Evaluates(st, a, decls, fixed)
            && (a.Yields? && !ExprStores(alu, r, a.state, decls, fixed) ==>
                  var b := Eval(alu, r, a.state);
                  && Evaluates(st, b, decls, fixed)
                  && (b.Yields? ==> (forall v :: Evaluates(st, Result(v, b.state), decls, fixed)) && forall w :: Evaluates(st, Yields(w, b.state), decls, fixed)))
    decreases e, 0
  {
    hide Agree, ExprStores, Eval, Evaluates;
    ExprKeeps(alu, l, st, decls, fixed);
    EvalAgrees(alu, l, Names(decls), st);
    var a := Eval(alu, l, st);
    YieldsIs(st, a, decls, fixed);
    if a.Yields? && !ExprStores(alu, r, a.state, decls, fixed) {
      ExprKeeps(alu, r, a.state, decls, fixed);
      EvaluatesBoth(st, a.state, Eval(alu, r, a.state), decls, fixed);
      ResultKeeps(st, Eval(alu, r, a.state), decls, fixed);
    }
  }

  lemma InitKeeps(alu: Alu, init: Option<Expr>, st: State, decls: seq<Decl>, fixed: set<string>, default: Value)
    requires Agree(Names(decls), st.scope) && !InitStores(alu, init, st, decls, fixed)
    ensures var r := if init.Some? then Eval(alu, init.value, st) else Yields(default, st);
            Evaluates(st, r, decls, fixed) && (r.Yields? ==> Same(st, r.state, decls, fixed) && Agree(Names(decls), r.state.scope))
  {
    hide Agree, ExprStores, Eval, Same;
    SameSelf(st, decls, fixed);
    if init.Some? {
      ExprKeeps(alu, init.value, st, decls, fixed);
      EvalAgrees(alu, init.value, Names(decls), st);
    }
  }

  lemma Fails(st: State, g: map<string, Value>, decls: seq<Decl>, fixed: set<string>)
    requires Evaluates(st, Fault(g), decls, fixed)
    ensures Keeps(st, Crash(g), decls, fixed)
  {
  }

  lemma {:induction false} StmtKeeps(alu: Alu, s: Stmt, st: State, decls: seq<Decl>, fixed: set<string>, fuel: nat)
    requires Agree(Names(decls), st.scope) && !StmtStores(alu, s, st, decls, fixed, fuel)
    ensures Keeps(st, Exec(alu, s, st, fuel), decls, fixed)
    decreases fuel, s, 1
  {
    hide Agree, ExprStores, Eval, ItemsStore, LoopStores, CasesStore, Same, GlobalsSame, ExecItems, ExecLoop, ExecCases;
    SameSelf(st, decls, fixed);
    match s
    case Evaluate(e) => ExprKeeps(alu, e, st, decls, fixed);
    case Block(items) =>
      ItemsKeep(alu, items, st, decls, fixed, fuel);
      LeaveKeeps(st, ExecItems(alu, items, false, st, fuel), decls, fixed);
    case If(c, yes, no) =>
      ExprKeeps(alu, c, st, decls, fixed);
      EvalAgrees(alu, c, Names(decls), st);
      var a := Eval(alu, c, st);
      if a.Yields? {
        if !IsFalsey(a.value) {
          StmtKeeps(alu, yes, a.state, decls, fixed, fuel);
          KeepsBoth(st, a.state, Exec(alu, yes, a.state, fuel), decls, fixed);
        } else if no.Some? {
          StmtKeeps(alu, no.value, a.state, decls, fixed, fuel);
          KeepsBoth(st, a.state, Exec(alu, no.value, a.state, fuel), decls, fixed);
        }
      }
    case While(test, body) => LoopKeeps(alu, test, None, body, st, decls, fixed, fuel);
    case For(_, _, _, _) => ForKeeps(alu, s, st, decls, fixed, fuel);
    case Switch(subject, cases) =>
      ExprKeeps(alu, subject, st, decls, fixed);
      EvalAgrees(alu, subject, Names(decls), st);
      var a := Eval(alu, subject, st);
      if a.Yields? {
        CasesKeep(alu, a.value, cases, a.state, decls, fixed, fuel);
        KeepsBoth(st, a.state, ExecCases(alu, a.value, cases, a.state, fuel), decls, fixed);
      }
    case Break =>
    case Continue =>
  }

  /** Forgetting the variables of an inner scope. */
  lemma LeaveKeeps(st: State, r: Outcome, decls: seq<Decl>, fixed: set<string>)
    requires Keeps(st, r, decls, fixed) && |decls| == |st.scope|
    ensures Keeps(st, Leave(r, |st.scope|), decls, fixed)
  {
  }

  lemma {:induction false} ForKeeps(alu: Alu, s: Stmt, st: State, decls: seq<Decl>, fixed: set<string>, fuel: nat)
    requires Agree(Names(decls), st.scope) && s.For? && !StmtStores(alu, s, st, decls, fixed, fuel)
    ensures Keeps(st, Exec(alu, s, st, fuel), decls, fixed)
    decreases fuel, s, 0
  {
    hide ItemsStore, LoopStores, Same, GlobalsSame, ExecItems, ExecLoop, With, Names, ExtendAll;
    ItemsKeep(alu, s.init, st, decls, fixed, fuel);
    var r := ExecItems(alu, s.init, false, st, fuel);
    ItemsAgree(alu, s.init, false, Names(decls), st, fuel);
    NamesWith(decls, s.init);
    if r.Done? && r.flow.Normal? {
      var more := With(decls, s.init);
      LoopKeeps(alu, s.test, s.step, s.body, r.state, more, fixed, fuel);
      var q := ExecLoop(alu, s.test, s.step, s.body, r.state, fuel);
      WithMore(decls, s.init);
      KeepsLess(r.state, q, more, decls, fixed);
      KeepsBoth(st, r.state, q, decls, fixed);
      LeaveKeeps(st, q, decls, fixed);
    } else {
      LeaveKeeps(st, r, decls, fixed);
    }
  }

  lemma {:induction false} WithMore(decls: seq<Decl>, items: Items)
    ensures decls <= With(decls, items)
    decreases items
  {
    if items.MoreItems? {
      match items.head
      case Declare(name, _, constant) => WithMore(decls + [Decl(name, constant)], items.tail);
      case Perform(_) => WithMore(decls, items.tail);
    }
  }

  lemma KeepsLess(st: State, r: Outcome, more: seq<Decl>, decls: seq<Decl>, fixed: set<string>)
    requires Keeps(st, r, more, fixed) && decls <= more
    ensures Keeps(st, r, decls, fixed)
  {
  }

  lemma {:induction false} CasesKeep(alu: Alu, v: Value, cases: Cases, st: State, decls: seq<Decl>, fixed: set<string>, fuel: nat)
    requires Agree(Names(decls), st.scope) && !CasesStore(alu, v, cases, st, decls, fixed, fuel)
    ensures Keeps(st, ExecCases(alu, v, cases, st, fuel), decls, fixed)
    decreases fuel, cases, 1
  {
    hide Agree, EvalAny, AnyStores, StmtStores, Exec, Same, GlobalsSame;
    SameSelf(st, decls, fixed);
    match cases
    case Otherwise(default) => if default.Some? { StmtKeeps(alu, default.value, st, decls, fixed, fuel); }
    case MoreCases(first, more, body, rest) =>
      AnyKeeps(alu, v, first, more, st, decls, fixed);
      AnyAgrees(alu, v, first, more, Names(decls), st);
      var hit := EvalAny(alu, v, first, more, st);
      if hit.Yields? && Count(more) < LABEL_LIMIT {
        if hit.value == Bool(true) {
          StmtKeeps(alu, body, hit.state, decls, fixed, fuel);
          KeepsBoth(st, hit.state, Exec(alu, body, hit.state, fuel), decls, fixed);
        } else {
          CasesKeep(alu, v, rest, hit.state, decls, fixed, fuel);
          KeepsBoth(st, hit.state, ExecCases(alu, v, rest, hit.state, fuel), decls, fixed);
        }
      }
  }

  lemma {:induction false} AnyKeeps(alu: Alu, v: Value, first: Expr, more: Exprs, st: State, decls: seq<Decl>, fixed: set<string>)
    requires Agree(Names(decls), st.scope) && !AnyStores(alu, v, first, more, st, decls, fixed)
    ensures Evaluates(st, EvalAny(alu, v, first, more, st), decls, fixed)
    decreases more
  {
    hide Agree, ExprStores, Eval, Same, GlobalsSame;
    ExprKeeps(alu, first, st, decls, fixed);
    EvalAgrees(alu, first, Names(decls), st);
    var a := Eval(alu, first, st);
    if a.Yields? && more.MoreExprs? {
      AnyKeeps(alu, v, more.head, more.tail, a.state, decls, fixed);
      EvaluatesBoth(st, a.state, EvalAny(alu, v, more.head, more.tail, a.state), decls, fixed);
    }
  }

  lemma {:induction false} LoopKeeps(alu: Alu, test: Option<Expr>, step: Option<Expr>, body: Stmt, st: State, decls: seq<Decl>,
      fixed: set<string>, fuel: nat)
    requires Agree(Names(decls), st.scope) && !LoopStores(alu, test, step, body, st, decls, fixed, fuel)
    ensures Keeps(st, ExecLoop(alu, test, step, body, st, fuel), decls, fixed)
    decreases fuel, body, 2
  {
    hide Agree, InitStores, Eval, StmtStores, Exec, Same, GlobalsSame;
    if fuel > 0 {
      InitKeeps(alu, test, st, decls, fixed, Bool(true));
      var v := if test.Some? then Eval(alu, test.value, st) else Yields(Bool(true), st);
      if v.Yields? && !IsFalsey(v.value) {
        StmtKeeps(alu, body, v.state, decls, fixed, fuel);
        ExecAgrees(alu, body, Names(decls), v.state, fuel);
        var r := Exec(alu, body, v.state, fuel);
        KeepsBoth(st, v.state, r, decls, fixed);
        if r.Done? && !r.flow.Broke? {
          InitKeeps(alu, step, r.state, decls, fixed, Nil);
          var w := if step.Some? then Eval(alu, step.value, r.state) else Yields(Nil, r.state);
          EvaluatesBoth(st, r.state, w, decls, fixed);
          if w.Yields? {
            LoopKeeps(alu, test, step, body, w.state, decls, fixed, fuel - 1);
            KeepsBoth(st, w.state, ExecLoop(alu, test, step, body, w.state, fuel - 1), decls, fixed);
          }
        }
      }
    }
  }

  lemma {:induction false} ItemsKeep(alu: Alu, items: Items, st: State, decls: seq<Decl>, fixed: set<string>, fuel: nat)
    requires Agree(Names(decls), st.scope) && !ItemsStore(alu, items, st, decls, fixed, fuel)
    ensures |decls| == |st.scope| && Keeps(st, ExecItems(alu, items, false, st, fuel), decls, fixed)
    decreases fuel, items, 1
  {
    SameSelf(st, decls, fixed);
    hide InitStores, Eval, StmtStores, Exec, Same, GlobalsSame;
    match items
    case NoItems =>
    case MoreItems(Declare(name, init, constant), tail) =>
      InitKeeps(alu, init, st, decls, fixed, Nil);
      DeclareAgrees(alu, name, init, constant, decls, st, fuel);
      var r := ExecItem(alu, items.head, false, st, fuel);
      if r.Done? {
        var more := decls + [Decl(name, constant)];
        ItemsKeep(alu, tail, r.state, more, fixed, fuel);
        var q := ExecItems(alu, tail, false, r.state, fuel);
        KeepsLess(r.state, q, more, decls, fixed);
        DeclareKeeps(alu, items.head, st, decls, fixed, fuel);
        KeepsBoth(st, r.state, q, decls, fixed);
      }
    case MoreItems(Perform(s), tail) =>
      StmtKeeps(alu, s, st, decls, fixed, fuel);
      ExecAgrees(alu, s, Names(decls), st, fuel);
      var r := Exec(alu, s, st, fuel);
      if r.Done? && r.flow.Normal? {
        ItemsKeep(alu, tail, r.state, decls, fixed, fuel);
        KeepsBoth(st, r.state, ExecItems(alu, tail, false, r.state, fuel), decls, fixed);
      }
  }

  lemma DeclareKeeps(alu: Alu, item: Item, st: State, decls: seq<Decl>, fixed: set<string>, fuel: nat)
    requires item.Declare? && Agree(Names(decls), st.scope) && !InitStores(alu, item.init, st, decls, fixed)
    ensures Keeps(st, ExecItem(alu, item, false, st, fuel), decls, fixed)
  {
    hide Eval, InitStores;
    InitKeeps(alu, item.init, st, decls, fixed, Nil);
  }

  // ---- constants that were declared ----

  /** From its declaration to the end of its block, however the block is left, a constant has the value it was declared
      with. */
  lemma LocalConstant(alu: Alu, name: Name, init: Option<Expr>, tail: Items, decls: seq<Decl>, own: nat, fixed: set<string>, looping: bool,
      st: State, fuel: nat)
    requires Agree(Names(decls), st.scope) && ProperItems(MoreItems(Declare(name, init, true), tail), decls, own, fixed, looping)
    requires ExecItem(alu, Declare(name, init, true), false, st, fuel).Done?
    ensures var declared := ExecItem(alu, Declare(name, init, true), false, st, fuel).state;
            var r := ExecItems(alu, tail, false, declared, fuel);
            && |declared.scope| == |decls| + 1 && declared.scope[|decls|].name == name
            && (r.Done? || r.Wide? ==> |r.state.scope| > |decls| && r.state.scope[|decls|] == declared.scope[|decls|])
  {
    hide Eval, ProperExpr, ExecItems, ProperItems, ItemsStore, Occurs;
    var more := decls + [Decl(name, true)];
    DeclareAgrees(alu, name, init, true, decls, st, fuel);
    var declared := ExecItem(alu, Declare(name, init, true), false, st, fuel).state;
    TailProper(name, init, tail, decls, own, fixed, looping);
    ItemsSpare(alu, tail, declared, more, own, fixed, looping, fuel);
    ItemsKeep(alu, tail, declared, more, fixed, fuel);
    assert more[|decls|].constant && Names(more)[|decls|] == name;
  }

  lemma TailProper(name: Name, init: Option<Expr>, tail: Items, decls: seq<Decl>, own: nat, fixed: set<string>, looping: bool)
    requires ProperItems(MoreItems(Declare(name, init, true), tail), decls, own, fixed, looping)
    ensures ProperItems(tail, decls + [Decl(name, true)], own, fixed, looping)
  {
    hide ProperInit, Occurs;
  }

  /** At top level `name` is declared again. */
  predicate DeclaresAgain(items: Items, name: string) {
    items.MoreItems? && ((items.head.Declare? && items.head.name == name) || DeclaresAgain(items.tail, name))
  }

  /** A global constant has its value for the rest of the program, unless it is declared again there. */
  lemma {:induction false} GlobalConstant(alu: Alu, name: string, items: Items, fixed: set<string>, st: State, fuel: nat)
    requires st.scope == [] && ProperProgram(items, fixed) && name in fixed && !DeclaresAgain(items, name)
    ensures Keeps(st, ExecItems(alu, items, true, st, fuel), [], {name})
    decreases items
  {
    hide ProperInit, ProperStmt, Same, ExecItem;
    if items.NoItems? {
      SameSelf(st, [], {name});
    } else {
      HeadKeeps(alu, name, items.head, fixed, st, fuel);
      var r := ExecItem(alu, items.head, true, st, fuel);
      if r.Done? && r.flow.Normal? {
        GlobalConstant(alu, name, items.tail, if items.head.Declare? && items.head.constant then fixed + {items.head.name} else fixed, r.state, fuel);
        KeepsBoth(st, r.state, ExecItems(alu, items.tail, true, r.state, fuel), [], {name});
      }
    }
  }

  lemma HeadKeeps(alu: Alu, name: string, item: Item, fixed: set<string>, st: State, fuel: nat)
    requires st.scope == [] && name in fixed
    requires if item.Declare? then ProperInit(item.init, [], fixed) && item.name != name else ProperStmt(item.s, [], fixed, false)
    ensures var r := ExecItem(alu, item, true, st, fuel); Keeps(st, r, [], {name}) && (r.Done? ==> r.state.scope == [])
  {
    hide ProperInit, ProperStmt, InitStores, StmtStores, Eval, Exec;
    match item
    case Declare(x, init, _) =>
      InitSpares(alu, init, st, [], fixed);
      InitKeeps(alu, init, st, [], fixed, Nil);
    case Perform(s) =>
      StmtSpares(alu, s, st, [], fixed, false, fuel);
      StmtKeeps(alu, s, st, [], fixed, fuel);
      ExecAgrees(alu, s, Names([]), st, fuel);
  }

  /** `const a = v; var a = w;` compiles, and `a` is `w` afterwards. */
  lemma DeclaredTwice(alu: Alu, v: Value, w: Value, g0: map<string, Value>, fuel: nat)
    ensures var program := MoreItems(Declare("a", Some(Literal(v)), true), MoreItems(Declare("a", Some(Literal(w)), false), NoItems));
            && Proper(program) && ItemsLen(program, true, 0) <= 65535
            && ExecItems(alu, program, true, State([], g0), fuel) == Done(Normal, State([], g0["a" := w]))
  {
    hide ExecItems;
    var second := MoreItems(Declare("a", Some(Literal(w)), false), NoItems);
    var program := MoreItems(Declare("a", Some(Literal(v)), true), second);
    TwiceProper(program, second, v, w);
    TwiceMeans(alu, program, second, v, w, g0, fuel);
  }

  lemma TwiceProper(program: Items, second: Items, v: Value, w: Value)
    requires program == MoreItems(Declare("a", Some(Literal(v)), true), second)
    requires second == MoreItems(Declare("a", Some(Literal(w)), false), NoItems)
    ensures ProperProgram(program, {}) && ItemsLiterals(program) <= 2 && ProgramGlobals(program) == {"a"} && ItemsLen(program, true, 0) <= 8
  {
    GlobalIs(program, {});
    GlobalIs(second, {"a"});
    assert InitGlobals(Some(Literal(v)), []) == {} && InitGlobals(Some(Literal(w)), []) == {};
    assert ProgramGlobals(NoItems) == {} && ProgramGlobals(second) == {"a"};
    assert ItemsLen(second, true, 0) <= 4;
  }

  lemma TwiceMeans(alu: Alu, program: Items, second: Items, v: Value, w: Value, g0: map<string, Value>, fuel: nat)
    requires program == MoreItems(Declare("a", Some(Literal(v)), true), second)
    requires second == MoreItems(Declare("a", Some(Literal(w)), false), NoItems)
    ensures ExecItems(alu, program, true, State([], g0), fuel) == Done(Normal, State([], g0["a" := w]))
  {
    var st := State([], g0["a" := v]);
    assert ExecItem(alu, second.head, true, st, fuel) == Done(Normal, State([], g0["a" := w])) by {
      assert g0["a" := v]["a" := w] == g0["a" := w];
    }
    assert ExecItems(alu, second, true, st, fuel) == Done(Normal, State([], g0["a" := w]));
    assert ExecItem(alu, program.head, true, State([], g0), fuel) == Done(Normal, st);
  }
}
