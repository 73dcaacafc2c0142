/** Which programs compile, told by the text alone and without going through the compiler's checks. */
module Acceptance {
  import opened Options
  import opened Values
  import opened Language
  import opened Bytecode
  import opened Layout
  import opened Limits

  /** A variable in scope. */
  datatype Decl = Decl(name: string, constant: bool)

  predicate IsLocal(decls: seq<Decl>, name: string) {
    exists i :: 0 <= i < |decls| && decls[i].name == name
  }

  /** The innermost variable of that name is no constant; `fixed` are the global constants. */
  predicate Assignable(decls: seq<Decl>, fixed: set<string>, name: string) {
    if IsLocal(decls, name) then
      exists i :: 0 <= i < |decls| && decls[i].name == name && !decls[i].constant && forall j :: i < j < |decls| ==> decls[j].name != name
    else name !in fixed
  }

  predicate Occurs(e: Expr, name: string) {
    match e
    case Literal(_) => false
    case Variable(x) => x == name
    case Assign(x, rhs) => x == name || Occurs(rhs, name)
    case Not(e1) => Occurs(e1, name)
    case Negate(e1) => Occurs(e1, name)
    case Binary(_, l, r) => Occurs(l, name) || Occurs(r, name)
    case And(l, r) => Occurs(l, name) || Occurs(r, name)
    case Or(l, r) => Occurs(l, name) || Occurs(r, name)
    case Ternary(c, yes, no) => Occurs(c, name) || Occurs(yes, name) || Occurs(no, name)
  }

  // ---- rules about names ----

  /** No constant is assigned. */
  predicate ProperExpr(e: Expr, decls: seq<Decl>, fixed: set<string>) {
    match e
    case Literal(_) => true
    case Variable(_) => true
    case Assign(name, rhs) => Assignable(decls, fixed, name) && ProperExpr(rhs, decls, fixed)
    case Not(e1) => ProperExpr(e1, decls, fixed)
    case Negate(e1) => ProperExpr(e1, decls, fixed)
    case Binary(_, l, r) => ProperExpr(l, decls, fixed) && ProperExpr(r, decls, fixed)
    case And(l, r) => ProperExpr(l, decls, fixed) && ProperExpr(r, decls, fixed)
    case Or(l, r) => ProperExpr(l, decls, fixed) && ProperExpr(r, decls, fixed)
    case Ternary(c, yes, no) => ProperExpr(c, decls, fixed) && ProperExpr(yes, decls, fixed) && ProperExpr(no, decls, fixed)
  }

  predicate ProperInit(init: Option<Expr>, decls: seq<Decl>, fixed: set<string>) {
    init.Some? ==> ProperExpr(init.value, decls, fixed)
  }

  predicate ProperExprs(es: Exprs, decls: seq<Decl>, fixed: set<string>) {
    es.MoreExprs? ==> ProperExpr(es.head, decls, fixed) && ProperExprs(es.tail, decls, fixed)
  }

  /** `break` and `continue` stand in loops, and a switch has at most 255 cases. */
  predicate ProperStmt(s: Stmt, decls: seq<Decl>, fixed: set<string>, looping: bool)
    decreases s
  {
    match s
    case Evaluate(e) => ProperExpr(e, decls, fixed)
    case Block(items) => ProperItems(items, decls, |decls|, fixed, looping)
    case If(c, yes, no) =>
      ProperExpr(c, decls, fixed) && ProperStmt(yes, decls, fixed, looping) && (no.Some? ==> ProperStmt(no.value, decls, fixed, looping))
    case While(test, body) => ProperInit(test, decls, fixed) && ProperStmt(body, decls, fixed, true)
    case For(init, test, step, body) =>
      && ProperItems(init, decls, |decls|, fixed, looping)
      && ProperInit(test, With(decls, init), fixed) && ProperInit(step, With(decls, init), fixed)
      && ProperStmt(body, With(decls, init), fixed, true)
    case Switch(subject, cases) =>
      ProperExpr(subject, decls, fixed) && ProperCases(cases, decls, fixed, looping) && Labels(cases) <= 255
    case Break => looping
    case Continue => looping
  }

  predicate ProperCases(cs: Cases, decls: seq<Decl>, fixed: set<string>, looping: bool)
    decreases cs
  {
    match cs
    case Otherwise(default) => default.Some? ==> ProperStmt(default.value, decls, fixed, looping)
    case MoreCases(first, more, body, rest) =>
      && ProperExpr(first, decls, fixed) && ProperExprs(more, decls, fixed)
      && ProperStmt(body, decls, fixed, looping) && ProperCases(rest, decls, fixed, looping)
  }

  function Labels(cs: Cases): nat {
    if cs.MoreCases? then 1 + Labels(cs.rest) else 0
  }

  /** In a block, whose variables are those from number `own` on: none is declared twice there or occurs in its own
      initialiser, and there are never more than 255 in scope. */
  predicate ProperItems(items: Items, decls: seq<Decl>, own: nat, fixed: set<string>, looping: bool)
    decreases items
  {
    match items
    case NoItems => true
    case MoreItems(Declare(name, init, constant), tail) =>
      && |decls| < 255 && (forall i :: own <= i < |decls| ==> decls[i].name != name)
      && ProperInit(init, decls, fixed) && (init.Some? ==> !Occurs(init.value, name))
      && ProperItems(tail, decls + [Decl(name, constant)], own, fixed, looping)
    case MoreItems(Perform(s), tail) => ProperStmt(s, decls, fixed, looping) && ProperItems(tail, decls, own, fixed, looping)
  }

  function With(decls: seq<Decl>, items: Items): (r: seq<Decl>)
    decreases items
  {
    match items
    case NoItems => decls
    case MoreItems(Declare(name, _, constant), tail) => With(decls + [Decl(name, constant)], tail)
    case MoreItems(Perform(_), tail) => With(decls, tail)
  }

  /** A global can be declared again, and is constant from the first declaration on that says so. */
  predicate ProperProgram(items: Items, fixed: set<string>)
    decreases items
  {
    match items
    case NoItems => true
    case MoreItems(Declare(name, init, constant), tail) =>
      ProperInit(init, [], fixed) && ProperProgram(tail, if constant then fixed + {name} else fixed)
    case MoreItems(Perform(s), tail) => ProperStmt(s, [], fixed, false) && ProperProgram(tail, fixed)
  }

  // ---- what takes a constant ----

  function Literals(e: Expr): nat {
    match e
    case Literal(v) => if v.Number? || v.Str? then 1 else 0
    case Variable(_) => 0
    case Assign(_, rhs) => Literals(rhs)
    case Not(e1) => Literals(e1)
    case Negate(e1) => Literals(e1)
    case Binary(_, l, r) => Literals(l) + Literals(r)
    case And(l, r) => Literals(l) + Literals(r)
    case Or(l, r) => Literals(l) + Literals(r)
    case Ternary(c, yes, no) => Literals(c) + Literals(yes) + Literals(no)
  }

  function InitLiterals(init: Option<Expr>): nat {
    if init.Some? then Literals(init.value) else 0
  }

  function ExprsLiterals(es: Exprs): nat {
    if es.MoreExprs? then Literals(es.head) + ExprsLiterals(es.tail) else 0
  }

  function StmtLiterals(s: Stmt): nat
    decreases s
  {
    match s
    case Evaluate(e) => Literals(e)
    case Block(items) => ItemsLiterals(items)
    case If(c, yes, no) => Literals(c) + StmtLiterals(yes) + if no.Some? then StmtLiterals(no.value) else 0
    case While(test, body) => InitLiterals(test) + StmtLiterals(body)
    case For(init, test, step, body) => ItemsLiterals(init) + InitLiterals(test) + InitLiterals(step) + StmtLiterals(body)
    case Switch(subject, cases) => Literals(subject) + CasesLiterals(cases)
    case _ => 0
  }

  function CasesLiterals(cs: Cases): nat
    decreases cs
  {
    match cs
    case Otherwise(default) => if default.Some? then StmtLiterals(default.value) else 0
    case MoreCases(first, more, body, rest) => Literals(first) + ExprsLiterals(more) + StmtLiterals(body) + CasesLiterals(rest)
  }

  function ItemsLiterals(items: Items): nat
    decreases items
  {
    match items
    case NoItems => 0
    case MoreItems(Declare(_, init, _), tail) => InitLiterals(init) + ItemsLiterals(tail)
    case MoreItems(Perform(s), tail) => StmtLiterals(s) + ItemsLiterals(tail)
  }

  /** The names that are looked up among the globals. */
  function Globals(e: Expr, decls: seq<Decl>): set<string> {
    match e
    case Literal(_) => {}
    case Variable(name) => if IsLocal(decls, name) then {} else {name}
    case Assign(name, rhs) => (if IsLocal(decls, name) then {} else {name}) + Globals(rhs, decls)
    case Not(e1) => Globals(e1, decls)
    case Negate(e1) => Globals(e1, decls)
    case Binary(_, l, r) => Globals(l, decls) + Globals(r, decls)
    case And(l, r) => Globals(l, decls) + Globals(r, decls)
    case Or(l, r) => Globals(l, decls) + Globals(r, decls)
    case Ternary(c, yes, no) => Globals(c, decls) + Globals(yes, decls) + Globals(no, decls)
  }

  function InitGlobals(init: Option<Expr>, decls: seq<Decl>): set<string> {
    if init.Some? then Globals(init.value, decls) else {}
  }

  function ExprsGlobals(es: Exprs, decls: seq<Decl>): set<string> {
    if es.MoreExprs? then Globals(es.head, decls) + ExprsGlobals(es.tail, decls) else {}
  }

  function StmtGlobals(s: Stmt, decls: seq<Decl>): set<string>
    decreases s
  {
    match s
    case Evaluate(e) => Globals(e, decls)
    case Block(items) => ItemsGlobals(items, decls)
    case If(c, yes, no) => Globals(c, decls) + StmtGlobals(yes, decls) + if no.Some? then StmtGlobals(no.value, decls) else {}
    case While(test, body) => InitGlobals(test, decls) + StmtGlobals(body, decls)
    case For(init, test, step, body) =>
      ItemsGlobals(init, decls) + InitGlobals(test, With(decls, init)) + InitGlobals(step, With(decls, init)) + StmtGlobals(body, With(decls, init))
    case Switch(subject, cases) => Globals(subject, decls) + CasesGlobals(cases, decls)
    case _ => {}
  }

  function CasesGlobals(cs: Cases, decls: seq<Decl>): set<string>
    decreases cs
  {
    match cs
    case Otherwise(default) => if default.Some? then StmtGlobals(default.value, decls) else {}
    case MoreCases(first, more, body, rest) =>
      Globals(first, decls) + ExprsGlobals(more, decls) + StmtGlobals(body, decls) + CasesGlobals(rest, decls)
  }

  function ItemsGlobals(items: Items, decls: seq<Decl>): set<string>
    decreases items
  {
    match items
    case NoItems => {}
    case MoreItems(Declare(name, init, constant), tail) =>
      InitGlobals(init, decls) + ItemsGlobals(tail, decls + [Decl(name, constant)])
    case MoreItems(Perform(s), tail) => StmtGlobals(s, decls) + ItemsGlobals(tail, decls)
  }

  function ProgramGlobals(items: Items): set<string>
    decreases items
  {
    match items
    case NoItems => {}
    case MoreItems(Declare(name, init, _), tail) => {name} + InitGlobals(init, []) + ProgramGlobals(tail)
    case MoreItems(Perform(s), tail) => StmtGlobals(s, []) + ProgramGlobals(tail)
  }

  // ---- the compiler's locals ----

  /** These are the compiler's locals for the variables in scope, when those from number `own` on are at `depth`. */
  predicate Fitting(locals: seq<Local>, decls: seq<Decl>, own: nat, depth: nat) {
    && |locals| == |decls| + 1 && locals[0] == Local("", 0, false) && own <= |decls|
    && forall i :: 0 <= i < |decls| ==> Same(locals[i + 1], decls[i], i >= own, depth)
  }

  predicate Same(l: Local, d: Decl, own: bool, depth: nat) {
    l.name == d.name && l.constant == d.constant && 0 < l.depth <= depth && (own <==> l.depth == depth)
  }

  /** The locals while an initialiser is compiled. */
  function Pending(locals: seq<Local>, pending: Option<string>): seq<Local> {
    if pending.Some? then locals + [Local(pending.value, -1, false)] else locals
  }

  lemma SlotIs(locals: seq<Local>, decls: seq<Decl>, own: nat, depth: nat, fixed: set<string>, name: Name)
    requires Fitting(locals, decls, own, depth)
    ensures var i := Slot(locals, name);
            && (0 <= i <==> IsLocal(decls, name)) && (0 <= i ==> locals[i].depth != -1)
            && (Assignable(decls, fixed, name) <==> if 0 <= i then !locals[i].constant else name !in fixed)
  {
    var i := Slot(locals, name);
    if 0 <= i {
      assert i > 0 && decls[i - 1].name == name;
      forall j | i - 1 < j < |decls|
        ensures decls[j].name != name
      {
        assert locals[j + 1].name != name;
      }
    } else {
      forall j | 0 <= j < |decls|
        ensures decls[j].name != name
      {
        assert locals[j + 1].name != name;
      }
    }
  }

  lemma PendingSlot(locals: seq<Local>, pending: Option<string>, name: string)
    ensures var i := Slot(Pending(locals, pending), name);
            if pending == Some(name) then i >= 0 && Pending(locals, pending)[i].depth == -1
            else i == Slot(locals, name) && (0 <= i ==> i < |locals| && Pending(locals, pending)[i] == locals[i])
  {
    if pending.Some? {
      var more := locals + [Local(pending.value, -1, false)];
      assert more[..|more| - 1] == locals;
    }
  }

  /** What compiling has added to the constants: `k` literals and the names of these globals. */
  predicate Adds(pool: Pool, r: Pool, k: nat, globals: set<string>) {
    r.fixed == pool.fixed && Grows(pool, r, k, globals)
  }

  predicate Grows(pool: Pool, r: Pool, k: nat, globals: set<string>) {
    && r.index.Keys == pool.index.Keys + globals
    && |r.constants| - |r.index.Keys| == |pool.constants| - |pool.index.Keys| + k
    && (|pool.constants| <= 256 ==> |r.constants| <= 256)
  }

  lemma AddsNothing(pool: Pool)
    ensures Adds(pool, pool, 0, {})
  {
  }

  lemma AddsBoth(a: Pool, b: Pool, c: Pool, k: nat, l: nat, s: set<string>, t: set<string>)
    requires Adds(a, b, k, s) && Adds(b, c, l, t)
    ensures Adds(a, c, k + l, s + t)
  {
  }

  lemma NameAdds(pool: Pool, name: string)
    requires AddName(pool, name).Some?
    ensures Adds(pool, AddName(pool, name).value, 0, {name})
  {
    var r := AddName(pool, name).value;
    if name in pool.index {
      assert pool.index.Keys + {name} == pool.index.Keys;
    } else {
      assert r.index.Keys == pool.index.Keys + {name};
    }
  }

  // ---- what is accepted is proper ----

  /** A check that gives `r` is passed only by what is proper, and adds so much. */
  predicate Passes(r: Option<Pool>, proper: bool, pool: Pool, k: nat, globals: set<string>) {
    r.Some? ==> proper && Adds(pool, r.value, k, globals)
  }

  /** Two checks, one after the other, and perhaps a limit. */
  lemma BothPass(a: Option<Pool>, b: Option<Pool>, r: Option<Pool>, pool: Pool, first: bool, second: bool, k: nat, l: nat,
      s: set<string>, t: set<string>)
    requires Passes(a, first, pool, k, s) && (a.Some? ==> Passes(b, second, a.value, l, t))
    requires r.Some? ==> a.Some? && r == b
    ensures Passes(r, first && second, pool, k + l, s + t)
  {
    hide Adds;
    if r.Some? { AddsBoth(pool, a.value, r.value, k, l, s, t); }
  }

  lemma SameFixed(a: Option<Pool>, proper: bool, pool: Pool, k: nat, globals: set<string>)
    requires Passes(a, proper, pool, k, globals)
    ensures a.Some? ==> a.value.fixed == pool.fixed
  {
  }

  /** An expression that is proper and leaves the pending variable alone. */
  predicate Clean(e: Expr, pending: Option<string>, decls: seq<Decl>, fixed: set<string>) {
    ProperExpr(e, decls, fixed) && (pending.Some? ==> !Occurs(e, pending.value))
  }

  lemma {:induction false} ExprProper(e: Expr, locals: seq<Local>, pending: Option<string>, pool: Pool, decls: seq<Decl>, own: nat,
      depth: nat)
    requires Fitting(locals, decls, own, depth)
    ensures Passes(CheckExpr(e, Pending(locals, pending), pool), Clean(e, pending, decls, pool.fixed), pool, Literals(e), Globals(e, decls))
    decreases e, 1
  {
    hide Fitting, Passes, IsLocal, Assignable, Pending;
    match e
    case Literal(v) => LiteralProper(v, Pending(locals, pending), pending, pool, decls);
    case Variable(name) => VariableProper(name, locals, pending, pool, decls, own, depth);
    case Assign(name, rhs) => AssignProper(name, rhs, locals, pending, pool, decls, own, depth);
    case Not(e1) => ExprProper(e1, locals, pending, pool, decls, own, depth);
    case Negate(e1) => ExprProper(e1, locals, pending, pool, decls, own, depth);
    case Binary(_, l, r) => BinaryProper(e, l, r, locals, pending, pool, decls, own, depth);
    case And(l, r) => BinaryProper(e, l, r, locals, pending, pool, decls, own, depth);
    case Or(l, r) => BinaryProper(e, l, r, locals, pending, pool, decls, own, depth);
    case Ternary(_, _, _) => TernaryProper(e, locals, pending, pool, decls, own, depth);
  }

  lemma {:induction false} AssignProper(name: Name, rhs: Expr, locals: seq<Local>, pending: Option<string>, pool: Pool,
      decls: seq<Decl>, own: nat, depth: nat)
    requires Fitting(locals, decls, own, depth)
    ensures var e := Assign(name, rhs);
            Passes(CheckExpr(e, Pending(locals, pending), pool), Clean(e, pending, decls, pool.fixed), pool, Literals(e), Globals(e, decls))
    decreases Assign(name, rhs), 0
  {
    hide Fitting, Passes, IsLocal, Assignable, Pending, CheckWrite;
    var all := Pending(locals, pending);
    StoreProper(name, locals, pending, pool, decls, own, depth);
    var a := CheckWrite(name, all, pool);
    var globals := if IsLocal(decls, name) then {} else {name};
    var first := pending != Some(name) && Assignable(decls, pool.fixed, name);
    SameFixed(a, first, pool, 0, globals);
    var b := if a.Some? then CheckExpr(rhs, all, a.value) else None;
    if a.Some? { ExprProper(rhs, locals, pending, a.value, decls, own, depth); }
    BothPass(a, b, CheckExpr(Assign(name, rhs), all, pool), pool, first, Clean(rhs, pending, decls, pool.fixed), 0, Literals(rhs), globals,
             Globals(rhs, decls));
  }

  lemma LiteralProper(v: Value, locals: seq<Local>, pending: Option<string>, pool: Pool, decls: seq<Decl>)
    ensures Passes(CheckExpr(Literal(v), locals, pool), Clean(Literal(v), pending, decls, pool.fixed), pool, Literals(Literal(v)), {})
  {
  }

  lemma VariableProper(name: Name, locals: seq<Local>, pending: Option<string>, pool: Pool, decls: seq<Decl>, own: nat, depth: nat)
    requires Fitting(locals, decls, own, depth)
    ensures var e := Variable(name);
            Passes(CheckExpr(e, Pending(locals, pending), pool), Clean(e, pending, decls, pool.fixed), pool, Literals(e), Globals(e, decls))
  {
    hide Fitting, Slot, Pending, IsLocal, AddName;
    SlotIs(locals, decls, own, depth, {}, name);
    PendingSlot(locals, pending, name);
    AddsNothing(pool);
    if AddName(pool, name).Some? { NameAdds(pool, name); }
  }

  lemma StoreProper(name: Name, locals: seq<Local>, pending: Option<string>, pool: Pool, decls: seq<Decl>, own: nat, depth: nat)
    requires Fitting(locals, decls, own, depth)
    ensures Passes(CheckWrite(name, Pending(locals, pending), pool), pending != Some(name) && Assignable(decls, pool.fixed, name), pool, 0,
                   if IsLocal(decls, name) then {} else {name})
  {
    hide Fitting, Slot, Pending, IsLocal, Assignable, AddName;
    SlotIs(locals, decls, own, depth, pool.fixed, name);
    PendingSlot(locals, pending, name);
    AddsNothing(pool);
    if AddName(pool, name).Some? { NameAdds(pool, name); }
  }

  /** What all three kinds have in common. */
  lemma BinaryIs(e: Expr, l: Expr, r: Expr, locals: seq<Local>, pending: Option<string>, pool: Pool, decls: seq<Decl>, fixed: set<string>)
    requires e == And(l, r) || e == Or(l, r) || (e.Binary? && e == Binary(e.op, l, r))
    ensures CheckExpr(e, locals, pool).Some? ==>
              CheckExpr(l, locals, pool).Some? && CheckExpr(e, locals, pool) == CheckExpr(r, locals, CheckExpr(l, locals, pool).value)
    ensures Clean(e, pending, decls, fixed) <==> Clean(l, pending, decls, fixed) && Clean(r, pending, decls, fixed)
    ensures Literals(e) == Literals(l) + Literals(r) && Globals(e, decls) == Globals(l, decls) + Globals(r, decls)
  {
    hide ExprLen;
  }

  lemma {:induction false} BinaryProper(e: Expr, l: Expr, r: Expr, locals: seq<Local>, pending: Option<string>, pool: Pool,
      decls: seq<Decl>, own: nat, depth: nat)
    requires Fitting(locals, decls, own, depth) && (e == And(l, r) || e == Or(l, r) || (e.Binary? && e == Binary(e.op, l, r)))
    ensures Passes(CheckExpr(e, Pending(locals, pending), pool), Clean(e, pending, decls, pool.fixed), pool, Literals(e), Globals(e, decls))
    decreases e, 0
  {
    hide Fitting, Passes, Pending, CheckExpr, Clean, Literals, Globals;
    var all, fixed := Pending(locals, pending), pool.fixed;
    BinaryIs(e, l, r, all, pending, pool, decls, fixed);
    ExprProper(l, locals, pending, pool, decls, own, depth);
    var a := CheckExpr(l, all, pool);
    SameFixed(a, Clean(l, pending, decls, fixed), pool, Literals(l), Globals(l, decls));
    var b := if a.Some? then CheckExpr(r, all, a.value) else None;
    if a.Some? { ExprProper(r, locals, pending, a.value, decls, own, depth); }
    BothPass(a, b, CheckExpr(e, all, pool), pool, Clean(l, pending, decls, fixed), Clean(r, pending, decls, fixed), Literals(l), Literals(r),
             Globals(l, decls), Globals(r, decls));
  }

  lemma TernaryIs(e: Expr, locals: seq<Local>, pending: Option<string>, pool: Pool, decls: seq<Decl>, fixed: set<string>)
    requires e.Ternary?
    ensures CheckExpr(e, locals, pool).Some? ==>
              && CheckExpr(e.cond, locals, pool).Some?
              && var a := CheckExpr(e.cond, locals, pool).value;
                 && CheckExpr(e.yes, locals, a).Some?
                 && CheckExpr(e, locals, pool) == CheckExpr(e.no, locals, CheckExpr(e.yes, locals, a).value)
    ensures Clean(e, pending, decls, fixed) <==>
              Clean(e.cond, pending, decls, fixed) && Clean(e.yes, pending, decls, fixed) && Clean(e.no, pending, decls, fixed)
    ensures Literals(e) == Literals(e.cond) + Literals(e.yes) + Literals(e.no)
    ensures Globals(e, decls) == Globals(e.cond, decls) + Globals(e.yes, decls) + Globals(e.no, decls)
  {
    hide ExprLen;
  }

  lemma {:induction false} TernaryProper(e: Expr, locals: seq<Local>, pending: Option<string>, pool: Pool, decls: seq<Decl>, own: nat,
      depth: nat)
    requires Fitting(locals, decls, own, depth) && e.Ternary?
    ensures Passes(CheckExpr(e, Pending(locals, pending), pool), Clean(e, pending, decls, pool.fixed), pool, Literals(e), Globals(e, decls))
    decreases e, 0
  {
    hide Fitting, Passes, Pending, CheckExpr, Clean, Literals, Globals;
    var all, fixed, c, yes, no := Pending(locals, pending), pool.fixed, e.cond, e.yes, e.no;
    TernaryIs(e, all, pending, pool, decls, fixed);
    ExprProper(c, locals, pending, pool, decls, own, depth);
    var a := CheckExpr(c, all, pool);
    SameFixed(a, Clean(c, pending, decls, fixed), pool, Literals(c), Globals(c, decls));
    var b := if a.Some? then CheckExpr(yes, all, a.value) else None;
    if a.Some? { ExprProper(yes, locals, pending, a.value, decls, own, depth); }
    BothPass(a, b, b, pool, Clean(c, pending, decls, fixed), Clean(yes, pending, decls, fixed), Literals(c), Literals(yes),
             Globals(c, decls), Globals(yes, decls));
    var first, k, s := Clean(c, pending, decls, fixed) && Clean(yes, pending, decls, fixed), Literals(c) + Literals(yes),
                       Globals(c, decls) + Globals(yes, decls);
    SameFixed(b, first, pool, k, s);
    var d := if b.Some? then CheckExpr(no, all, b.value) else None;
    if b.Some? { ExprProper(no, locals, pending, b.value, decls, own, depth); }
    BothPass(b, d, CheckExpr(e, all, pool), pool, first, Clean(no, pending, decls, fixed), k, Literals(no), s, Globals(no, decls));
  }

  /** An expression outside of initialisers. */
  lemma ValueProper(e: Expr, locals: seq<Local>, pool: Pool, decls: seq<Decl>, own: nat, depth: nat)
    requires Fitting(locals, decls, own, depth)
    ensures Passes(CheckExpr(e, locals, pool), ProperExpr(e, decls, pool.fixed), pool, Literals(e), Globals(e, decls))
  {
    hide Fitting, Adds, CheckExpr, ProperExpr, Literals, Globals;
    ExprProper(e, locals, None, pool, decls, own, depth);
  }

  lemma InitProper(init: Option<Expr>, locals: seq<Local>, pool: Pool, decls: seq<Decl>, own: nat, depth: nat)
    requires Fitting(locals, decls, own, depth)
    ensures Passes(CheckInit(init, locals, pool), ProperInit(init, decls, pool.fixed), pool, InitLiterals(init), InitGlobals(init, decls))
  {
    hide Fitting, CheckExpr, ProperExpr, Literals, Globals;
    AddsNothing(pool);
    if init.Some? { ValueProper(init.value, locals, pool, decls, own, depth); }
  }

  lemma {:induction false} ExprsProper(es: Exprs, locals: seq<Local>, pool: Pool, decls: seq<Decl>, own: nat, depth: nat)
    requires Fitting(locals, decls, own, depth)
    ensures Passes(CheckExprs(es, locals, pool), ProperExprs(es, decls, pool.fixed), pool, ExprsLiterals(es), ExprsGlobals(es, decls))
    decreases es
  {
    if es.NoExprs? {
      AddsNothing(pool);
    } else {
      hide Fitting, Passes, CheckExpr, ProperExpr, Literals, Globals, CheckExprs, ProperExprs, ExprsLiterals, ExprsGlobals;
      var head, tail, fixed := es.head, es.tail, pool.fixed;
      ExprsAre(head, tail, locals, pool, decls, fixed);
      ValueProper(head, locals, pool, decls, own, depth);
      var a := CheckExpr(head, locals, pool);
      SameFixed(a, ProperExpr(head, decls, fixed), pool, Literals(head), Globals(head, decls));
      var b := if a.Some? then CheckExprs(tail, locals, a.value) else None;
      if a.Some? { ExprsProper(tail, locals, a.value, decls, own, depth); }
      BothPass(a, b, CheckExprs(es, locals, pool), pool, ProperExpr(head, decls, fixed), ProperExprs(tail, decls, fixed),
               Literals(head), ExprsLiterals(tail), Globals(head, decls), ExprsGlobals(tail, decls));
    }
  }

  lemma ExprsAre(head: Expr, tail: Exprs, locals: seq<Local>, pool: Pool, decls: seq<Decl>, fixed: set<string>)
    ensures var es := MoreExprs(head, tail);
            && CheckExprs(es, locals, pool) ==
               (if CheckExpr(head, locals, pool).Some? then CheckExprs(tail, locals, CheckExpr(head, locals, pool).value) else None)
            && (ProperExprs(es, decls, fixed) <==> ProperExpr(head, decls, fixed) && ProperExprs(tail, decls, fixed))
            && ExprsLiterals(es) == Literals(head) + ExprsLiterals(tail)
            && ExprsGlobals(es, decls) == Globals(head, decls) + ExprsGlobals(tail, decls)
  {
    hide CheckExpr, ProperExpr, Literals, Globals;
  }

  lemma Deeper(locals: seq<Local>, decls: seq<Decl>, own: nat, depth: nat)
    requires Fitting(locals, decls, own, depth)
    ensures Fitting(locals, decls, |decls|, depth + 1)
  {
    forall i | 0 <= i < |decls|
      ensures Same(locals[i + 1], decls[i], i >= |decls|, depth + 1)
    {
      assert Same(locals[i + 1], decls[i], i >= own, depth);
    }
  }

  lemma FittingMore(locals: seq<Local>, decls: seq<Decl>, own: nat, depth: nat, name: string, constant: bool)
    requires Fitting(locals, decls, own, depth) && depth > 0
    ensures Fitting(locals + [Local(name, depth, constant)], decls + [Decl(name, constant)], own, depth)
  {
  }

  lemma {:induction false} FittingWith(locals: seq<Local>, decls: seq<Decl>, own: nat, depth: nat, items: Items)
    requires Fitting(locals, decls, own, depth) && depth > 0
    ensures Fitting(ScopeAll(locals, items, depth), With(decls, items), own, depth)
    decreases items
  {
    hide Fitting, NamesOf;
    if items.MoreItems? {
      match items.head
      case Declare(name, _, constant) =>
        FittingMore(locals, decls, own, depth, name, constant);
        FittingWith(locals + [Local(name, depth, constant)], decls + [Decl(name, constant)], own, depth, items.tail);
      case Perform(_) => FittingWith(locals, decls, own, depth, items.tail);
    }
  }

  lemma FittingLess(locals: seq<Local>, decls: seq<Decl>, own: nat, depth: nat)
    requires Fitting(locals, decls, own, depth) && |decls| > own
    ensures Fitting(locals[..|decls|], decls[..|decls| - 1], own, depth)
  {
    var less, fewer := locals[..|decls|], decls[..|decls| - 1];
    assert less[0] == locals[0] && |less| == |fewer| + 1 && own <= |fewer|;
    forall i | 0 <= i < |fewer|
      ensures Same(less[i + 1], fewer[i], i >= own, depth)
    {
      assert Same(locals[i + 1], decls[i], i >= own, depth);
    }
  }

  lemma {:induction false} RedeclaredIs(locals: seq<Local>, decls: seq<Decl>, own: nat, depth: nat, name: string)
    requires Fitting(locals, decls, own, depth) && depth > 0
    ensures Redeclared(locals, name, depth) <==> exists i :: own <= i < |decls| && decls[i].name == name
    decreases |decls|
  {
    var n := |decls| - 1;
    if |decls| > own {
      FittingLess(locals, decls, own, depth);
      RedeclaredIs(locals[..n + 1], decls[..n], own, depth, name);
      assert locals[..|locals| - 1] == locals[..n + 1] && locals[|locals| - 1].name == decls[n].name;
      forall i | own <= i < n
        ensures decls[..n][i] == decls[i]
      {
      }
      assert Redeclared(locals, name, depth) <==> decls[n].name == name || Redeclared(locals[..n + 1], name, depth);
    } else {
      if |decls| > 0 { assert decls[n].name == locals[n + 1].name && locals[n + 1].depth < depth; }
      assert locals[|locals| - 1].depth < depth && locals[|locals| - 1].depth != -1;
    }
  }

  lemma FittingLength(locals: seq<Local>, decls: seq<Decl>, own: nat, depth: nat)
    requires Fitting(locals, decls, own, depth)
    ensures |locals| == |decls| + 1
  {
  }

  lemma {:induction false} StmtProper(s: Stmt, locals: seq<Local>, depth: nat, t: Target, p: nat, pool: Pool, decls: seq<Decl>, own: nat)
    requires Fitting(locals, decls, own, depth)
    ensures Passes(CheckStmt(s, locals, depth, t, p, pool), ProperStmt(s, decls, pool.fixed, t.InLoop?), pool, StmtLiterals(s),
                   StmtGlobals(s, decls))
    decreases s, 1
  {
    hide Fitting, Passes, CheckExpr, ProperExpr, Literals, Globals, Adds, NamesOf, StmtLen, ItemsLen, CheckItems, ProperItems;
    FittingLength(locals, decls, own, depth);
    match s
    case Evaluate(e) => ValueProper(e, locals, pool, decls, own, depth);
    case Block(items) =>
      Deeper(locals, decls, own, depth);
      ItemsProper(items, locals, depth + 1, t, p, pool, decls, |decls|);
    case If(c, yes, no) => IfProper(s, locals, depth, t, p, pool, decls, own);
    case While(_, _) => WhileProper(s, locals, depth, t, p, pool, decls, own);
    case For(init, test, step, body) => ForStmtProper(s, locals, depth, t, p, pool, decls, own);
    case Switch(subject, cases) => SwitchProper(s, locals, depth, t, p, pool, decls, own);
    case Break => JumpProper(s, locals, depth, t, p, pool, decls);
    case Continue => JumpProper(s, locals, depth, t, p, pool, decls);
  }

  lemma JumpProper(s: Stmt, locals: seq<Local>, depth: nat, t: Target, p: nat, pool: Pool, decls: seq<Decl>)
    requires |locals| > 0 && (s.Break? || s.Continue?)
    ensures Passes(CheckStmt(s, locals, depth, t, p, pool), ProperStmt(s, decls, pool.fixed, t.InLoop?), pool, StmtLiterals(s),
                   StmtGlobals(s, decls))
  {
    AddsNothing(pool);
  }

  lemma {:induction false} IfProper(s: Stmt, locals: seq<Local>, depth: nat, t: Target, p: nat, pool: Pool, decls: seq<Decl>, own: nat)
    requires Fitting(locals, decls, own, depth) && s.If?
    ensures Passes(CheckStmt(s, locals, depth, t, p, pool), ProperStmt(s, decls, pool.fixed, t.InLoop?), pool, StmtLiterals(s),
                   StmtGlobals(s, decls))
    decreases s, 0
  {
    hide Fitting, Passes, CheckExpr, ProperExpr, Literals, Globals, CheckStmt, ProperStmt, StmtLiterals, StmtGlobals;
    FittingLength(locals, decls, own, depth);
    var fixed := pool.fixed;
    var q, o := IfIs(s, locals, depth, t, p, pool, decls, fixed);
    ValueProper(s.cond, locals, pool, decls, own, depth);
    var a := CheckExpr(s.cond, locals, pool);
    SameFixed(a, ProperExpr(s.cond, decls, fixed), pool, Literals(s.cond), Globals(s.cond, decls));
    var b := if a.Some? then CheckStmt(s.yes, locals, depth, t, q, a.value) else None;
    if a.Some? { StmtProper(s.yes, locals, depth, t, q, a.value, decls, own); }
    var first, k, g := ProperExpr(s.cond, decls, fixed) && ProperStmt(s.yes, decls, fixed, t.InLoop?),
                       Literals(s.cond) + StmtLiterals(s.yes), Globals(s.cond, decls) + StmtGlobals(s.yes, decls);
    BothPass(a, b, b, pool, ProperExpr(s.cond, decls, fixed), ProperStmt(s.yes, decls, fixed, t.InLoop?), Literals(s.cond),
             StmtLiterals(s.yes), Globals(s.cond, decls), StmtGlobals(s.yes, decls));
    SameFixed(b, first, pool, k, g);
    var d := if b.None? then None else if s.no.None? then b else CheckStmt(s.no.value, locals, depth, t, o, b.value);
    if b.Some? {
      NothingPasses(b.value);
      if s.no.Some? { StmtProper(s.no.value, locals, depth, t, o, b.value, decls, own); }
    }
    BothPass(b, d, CheckStmt(s, locals, depth, t, p, pool), pool, first, s.no.Some? ==> ProperStmt(s.no.value, decls, fixed, t.InLoop?), k,
             if s.no.Some? then StmtLiterals(s.no.value) else 0, g, if s.no.Some? then StmtGlobals(s.no.value, decls) else {});
  }

  lemma NothingPasses(pool: Pool)
    ensures Passes(Some(pool), true, pool, 0, {})
  {
  }

  lemma IfIs(s: Stmt, locals: seq<Local>, depth: nat, t: Target, p: nat, pool: Pool, decls: seq<Decl>, fixed: set<string>)
    returns (q: nat, o: nat)
    requires |locals| > 0 && s.If?
    ensures CheckStmt(s, locals, depth, t, p, pool).Some? ==>
              && CheckExpr(s.cond, locals, pool).Some?
              && var b := CheckStmt(s.yes, locals, depth, t, q, CheckExpr(s.cond, locals, pool).value);
                 && b.Some?
                 && CheckStmt(s, locals, depth, t, p, pool) == if s.no.None? then b else CheckStmt(s.no.value, locals, depth, t, o, b.value)
    ensures ProperStmt(s, decls, fixed, t.InLoop?) <==>
              && ProperExpr(s.cond, decls, fixed) && ProperStmt(s.yes, decls, fixed, t.InLoop?)
              && (s.no.Some? ==> ProperStmt(s.no.value, decls, fixed, t.InLoop?))
    ensures StmtLiterals(s) == Literals(s.cond) + StmtLiterals(s.yes) + if s.no.Some? then StmtLiterals(s.no.value) else 0
    ensures StmtGlobals(s, decls) ==
              Globals(s.cond, decls) + StmtGlobals(s.yes, decls) + if s.no.Some? then StmtGlobals(s.no.value, decls) else {}
  {
    hide CheckExpr, ProperExpr, Literals, Globals, StmtLen, ExprLen, NamesOf;
    q := p + ExprLen(s.cond) + 4;
    o := p + ExprLen(s.cond) + StmtLen(s.yes, Extra(NamesOf(locals), t)) + 8;
  }

  lemma {:induction false} WhileProper(s: Stmt, locals: seq<Local>, depth: nat, t: Target, p: nat, pool: Pool, decls: seq<Decl>, own: nat)
    requires Fitting(locals, decls, own, depth) && s.While?
    ensures Passes(CheckStmt(s, locals, depth, t, p, pool), ProperStmt(s, decls, pool.fixed, t.InLoop?), pool, StmtLiterals(s),
                   StmtGlobals(s, decls))
    decreases s, 0
  {
    hide Fitting, Passes, CheckInit, ProperInit, InitLiterals, InitGlobals, CheckStmt, ProperStmt, StmtLiterals, StmtGlobals, InitLen;
    FittingLength(locals, decls, own, depth);
    var fixed, test, body, q := pool.fixed, s.test, s.body, p + InitLen(s.test) + 4;
    var inside := InLoop(p, |locals| - 1, None);
    WhileIs(s, locals, depth, t, p, pool, decls, fixed);
    InitProper(test, locals, pool, decls, own, depth);
    var a := CheckInit(test, locals, pool);
    SameFixed(a, ProperInit(test, decls, fixed), pool, InitLiterals(test), InitGlobals(test, decls));
    var b := if a.Some? then CheckStmt(body, locals, depth, inside, q, a.value) else None;
    if a.Some? { StmtProper(body, locals, depth, inside, q, a.value, decls, own); }
    BothPass(a, b, CheckStmt(s, locals, depth, t, p, pool), pool, ProperInit(test, decls, fixed), ProperStmt(body, decls, fixed, true),
             InitLiterals(test), StmtLiterals(body), InitGlobals(test, decls), StmtGlobals(body, decls));
  }

  lemma WhileIs(s: Stmt, locals: seq<Local>, depth: nat, t: Target, p: nat, pool: Pool, decls: seq<Decl>, fixed: set<string>)
    requires |locals| > 0 && s.While?
    ensures CheckStmt(s, locals, depth, t, p, pool).Some? ==>
              && CheckInit(s.test, locals, pool).Some?
              && CheckStmt(s, locals, depth, t, p, pool) ==
                 CheckStmt(s.body, locals, depth, InLoop(p, |locals| - 1, None), p + InitLen(s.test) + 4, CheckInit(s.test, locals, pool).value)
    ensures ProperStmt(s, decls, fixed, t.InLoop?) <==> ProperInit(s.test, decls, fixed) && ProperStmt(s.body, decls, fixed, true)
    ensures StmtLiterals(s) == InitLiterals(s.test) + StmtLiterals(s.body)
    ensures StmtGlobals(s, decls) == InitGlobals(s.test, decls) + StmtGlobals(s.body, decls)
  {
    hide CheckInit, ProperInit, InitLiterals, InitGlobals, InitLen, StmtLen;
    assert CheckStmt(s, locals, depth, t, p, pool) == CheckWhile(s.test, s.body, locals, depth, p, pool);
  }

  lemma {:induction false} ForStmtProper(s: Stmt, locals: seq<Local>, depth: nat, t: Target, p: nat, pool: Pool, decls: seq<Decl>, own: nat)
    requires Fitting(locals, decls, own, depth) && s.For?
    ensures Passes(CheckStmt(s, locals, depth, t, p, pool), ProperStmt(s, decls, pool.fixed, t.InLoop?), pool, StmtLiterals(s),
                   StmtGlobals(s, decls))
    decreases s, 0
  {
    hide Fitting, Passes, CheckItems, ProperItems, CheckFor, ProperInit, InitLiterals, InitGlobals, ItemsLiterals, ItemsGlobals, ScopeAll,
         With, ItemsLen, NamesOf;
    FittingLength(locals, decls, own, depth);
    Deeper(locals, decls, own, depth);
    FittingWith(locals, decls, |decls|, depth + 1, s.init);
    var fixed, more, inner := pool.fixed, With(decls, s.init), ScopeAll(locals, s.init, depth + 1);
    ItemsProper(s.init, locals, depth + 1, t, p, pool, decls, |decls|);
    var a := CheckItems(s.init, locals, depth + 1, t, p, pool);
    var first := ProperItems(s.init, decls, |decls|, fixed, t.InLoop?);
    SameFixed(a, first, pool, ItemsLiterals(s.init), ItemsGlobals(s.init, decls));
    var q := p + ItemsLen(s.init, false, Extra(NamesOf(locals), t));
    var b := if a.Some? then CheckFor(s.test, s.step, s.body, inner, depth + 1, q, a.value) else None;
    if a.Some? { ForProper(s.test, s.step, s.body, inner, depth + 1, q, a.value, more, |decls|); }
    BothPass(a, b, CheckStmt(s, locals, depth, t, p, pool), pool, first,
             ProperInit(s.test, more, fixed) && ProperInit(s.step, more, fixed) && ProperStmt(s.body, more, fixed, true),
             ItemsLiterals(s.init), InitLiterals(s.test) + InitLiterals(s.step) + StmtLiterals(s.body),
             ItemsGlobals(s.init, decls), InitGlobals(s.test, more) + InitGlobals(s.step, more) + StmtGlobals(s.body, more));
    assert StmtGlobals(s, decls) ==
      ItemsGlobals(s.init, decls) + (InitGlobals(s.test, more) + InitGlobals(s.step, more) + StmtGlobals(s.body, more));
  }

  lemma {:induction false} ForProper(test: Option<Expr>, step: Option<Expr>, body: Stmt, locals: seq<Local>, depth: nat, p: nat, pool: Pool,
      decls: seq<Decl>, own: nat)
    requires Fitting(locals, decls, own, depth)
    ensures |locals| > 0
    ensures Passes(CheckFor(test, step, body, locals, depth, p, pool),
                   ProperInit(test, decls, pool.fixed) && ProperInit(step, decls, pool.fixed) && ProperStmt(body, decls, pool.fixed, true), pool,
                   InitLiterals(test) + InitLiterals(step) + StmtLiterals(body),
                   InitGlobals(test, decls) + InitGlobals(step, decls) + StmtGlobals(body, decls))
    decreases body, 2
  {
    hide Fitting, Passes, CheckInit, ProperInit, InitLiterals, InitGlobals, CheckStmt, ProperStmt, StmtLiterals, StmtGlobals, StmtLen, StepLen,
         TestLen;
    FittingLength(locals, decls, own, depth);
    var fixed := pool.fixed;
    InitProper(test, locals, pool, decls, own, depth);
    var a := CheckInit(test, locals, pool);
    SameFixed(a, ProperInit(test, decls, fixed), pool, InitLiterals(test), InitGlobals(test, decls));
    var b := if a.Some? then CheckInit(step, locals, a.value) else None;
    if a.Some? { InitProper(step, locals, a.value, decls, own, depth); }
    BothPass(a, b, b, pool, ProperInit(test, decls, fixed), ProperInit(step, decls, fixed), InitLiterals(test), InitLiterals(step),
             InitGlobals(test, decls), InitGlobals(step, decls));
    var first, k, g := ProperInit(test, decls, fixed) && ProperInit(step, decls, fixed), InitLiterals(test) + InitLiterals(step),
                       InitGlobals(test, decls) + InitGlobals(step, decls);
    SameFixed(b, first, pool, k, g);
    var q := p + TestLen(test);
    var inside := InLoop(if step.Some? then q + 3 else p, |locals| - 1, None);
    var d := if b.Some? then CheckStmt(body, locals, depth, inside, q + StepLen(step), b.value) else None;
    if b.Some? { StmtProper(body, locals, depth, inside, q + StepLen(step), b.value, decls, own); }
    BothPass(b, d, CheckFor(test, step, body, locals, depth, p, pool), pool, first, ProperStmt(body, decls, fixed, true), k,
             StmtLiterals(body), g, StmtGlobals(body, decls));
  }

  lemma {:induction false} SwitchProper(s: Stmt, locals: seq<Local>, depth: nat, t: Target, p: nat, pool: Pool, decls: seq<Decl>, own: nat)
    requires Fitting(locals, decls, own, depth) && s.Switch?
    ensures Passes(CheckStmt(s, locals, depth, t, p, pool), ProperStmt(s, decls, pool.fixed, t.InLoop?), pool, StmtLiterals(s),
                   StmtGlobals(s, decls))
    decreases s, 0
  {
    hide Fitting, Passes, CheckExpr, ProperExpr, Literals, Globals, CheckCases, ProperCases, CasesLiterals, CasesGlobals;
    FittingLength(locals, decls, own, depth);
    var fixed := pool.fixed;
    ValueProper(s.subject, locals, pool, decls, own, depth);
    var a := CheckExpr(s.subject, locals, pool);
    SameFixed(a, ProperExpr(s.subject, decls, fixed), pool, Literals(s.subject), Globals(s.subject, decls));
    var b := if a.Some? then CheckCases(s.cases, 0, locals, depth, t, p + ExprLen(s.subject), a.value) else None;
    if a.Some? { CasesProper(s.cases, 0, locals, depth, t, p + ExprLen(s.subject), a.value, decls, own); }
    BothPass(a, b, CheckStmt(s, locals, depth, t, p, pool), pool, ProperExpr(s.subject, decls, fixed),
             ProperCases(s.cases, decls, fixed, t.InLoop?) && Labels(s.cases) <= 255, Literals(s.subject), CasesLiterals(s.cases),
             Globals(s.subject, decls), CasesGlobals(s.cases, decls));
  }

  lemma {:induction false} CasesProper(cs: Cases, count: nat, locals: seq<Local>, depth: nat, t: Target, p: nat, pool: Pool,
      decls: seq<Decl>, own: nat)
    requires Fitting(locals, decls, own, depth) && count <= 255
    ensures |locals| > 0
    ensures Passes(CheckCases(cs, count, locals, depth, t, p, pool),
                   ProperCases(cs, decls, pool.fixed, t.InLoop?) && count + Labels(cs) <= 255, pool, CasesLiterals(cs), CasesGlobals(cs, decls))
    decreases cs, 1
  {
    if cs.Otherwise? {
      DefaultProper(cs.default, count, locals, depth, t, p, pool, decls, own);
    } else {
      MoreCasesProper(cs, count, locals, depth, t, p, pool, decls, own);
    }
  }

  lemma {:induction false} DefaultProper(default: Option<Stmt>, count: nat, locals: seq<Local>, depth: nat, t: Target, p: nat, pool: Pool,
      decls: seq<Decl>, own: nat)
    requires Fitting(locals, decls, own, depth) && count <= 255
    ensures |locals| > 0
    ensures var cs := Otherwise(default);
            Passes(CheckCases(cs, count, locals, depth, t, p, pool),
                   ProperCases(cs, decls, pool.fixed, t.InLoop?) && count + Labels(cs) <= 255, pool, CasesLiterals(cs), CasesGlobals(cs, decls))
    decreases Otherwise(default), 0
  {
    hide Fitting, CheckStmt, ProperStmt, StmtLiterals, StmtGlobals, Adds;
    FittingLength(locals, decls, own, depth);
    AddsNothing(pool);
    if default.Some? { StmtProper(default.value, locals, depth, t, p + 1, pool, decls, own); }
  }

  lemma {:induction false} MoreCasesProper(cs: Cases, count: nat, locals: seq<Local>, depth: nat, t: Target, p: nat, pool: Pool,
      decls: seq<Decl>, own: nat)
    requires Fitting(locals, decls, own, depth) && count <= 255 && cs.MoreCases?
    ensures |locals| > 0
    ensures Passes(CheckCases(cs, count, locals, depth, t, p, pool),
                   ProperCases(cs, decls, pool.fixed, t.InLoop?) && count + Labels(cs) <= 255, pool, CasesLiterals(cs), CasesGlobals(cs, decls))
    decreases cs, 0
  {
    hide Fitting, Passes, CheckExpr, ProperExpr, Literals, Globals, CheckExprs, ProperExprs, ExprsLiterals, ExprsGlobals, CheckStmt, ProperStmt,
         StmtLiterals, StmtGlobals, CheckCases, ProperCases, CasesLiterals, CasesGlobals;
    FittingLength(locals, decls, own, depth);
    var fixed := pool.fixed;
    var q, o := CaseIs(cs, count, locals, depth, t, p, pool, decls, fixed);
    var a, b := LabelProper(cs.first, cs.more, locals, pool, decls, own, depth);
    var labelled, k, g := ProperExpr(cs.first, decls, fixed) && ProperExprs(cs.more, decls, fixed), Literals(cs.first) + ExprsLiterals(cs.more),
                       Globals(cs.first, decls) + ExprsGlobals(cs.more, decls);
    SameFixed(b, labelled, pool, k, g);
    var c := if b.Some? then CheckStmt(cs.body, locals, depth, t, q, b.value) else None;
    if b.Some? { StmtProper(cs.body, locals, depth, t, q, b.value, decls, own); }
    BothPass(b, c, c, pool, labelled, ProperStmt(cs.body, decls, fixed, t.InLoop?), k, StmtLiterals(cs.body), g, StmtGlobals(cs.body, decls));
    SameFixed(c, labelled && ProperStmt(cs.body, decls, fixed, t.InLoop?), pool, k + StmtLiterals(cs.body), g + StmtGlobals(cs.body, decls));
    var d := if c.Some? && count < 255 then CheckCases(cs.rest, count + 1, locals, depth, t, o, c.value) else None;
    if d.Some? { CasesProper(cs.rest, count + 1, locals, depth, t, o, c.value, decls, own); }
    var last := ProperCases(cs.rest, decls, fixed, t.InLoop?) && count + 1 + Labels(cs.rest) <= 255;
    if d.None? { NonePasses(last, if c.Some? then c.value else pool, CasesLiterals(cs.rest), CasesGlobals(cs.rest, decls)); }
    BothPass(c, d, CheckCases(cs, count, locals, depth, t, p, pool), pool, labelled && ProperStmt(cs.body, decls, fixed, t.InLoop?), last,
             k + StmtLiterals(cs.body), CasesLiterals(cs.rest), g + StmtGlobals(cs.body, decls), CasesGlobals(cs.rest, decls));
  }

  lemma NonePasses(proper: bool, pool: Pool, k: nat, globals: set<string>)
    ensures Passes(None, proper, pool, k, globals)
  {
  }

  /** The values of a label. */
  lemma LabelProper(first: Expr, more: Exprs, locals: seq<Local>, pool: Pool, decls: seq<Decl>, own: nat, depth: nat)
    returns (a: Option<Pool>, b: Option<Pool>)
    requires Fitting(locals, decls, own, depth)
    ensures a == CheckExpr(first, locals, pool) && b == (if a.Some? then CheckExprs(more, locals, a.value) else None)
    ensures Passes(b, ProperExpr(first, decls, pool.fixed) && ProperExprs(more, decls, pool.fixed), pool, Literals(first) + ExprsLiterals(more),
                   Globals(first, decls) + ExprsGlobals(more, decls))
  {
    hide Fitting, Passes, CheckExpr, ProperExpr, Literals, Globals, CheckExprs, ProperExprs, ExprsLiterals, ExprsGlobals;
    ValueProper(first, locals, pool, decls, own, depth);
    a := CheckExpr(first, locals, pool);
    SameFixed(a, ProperExpr(first, decls, pool.fixed), pool, Literals(first), Globals(first, decls));
    b := if a.Some? then CheckExprs(more, locals, a.value) else None;
    if a.Some? { ExprsProper(more, locals, a.value, decls, own, depth); }
    BothPass(a, b, b, pool, ProperExpr(first, decls, pool.fixed), ProperExprs(more, decls, pool.fixed), Literals(first), ExprsLiterals(more),
             Globals(first, decls), ExprsGlobals(more, decls));
  }

  lemma CaseIs(cs: Cases, count: nat, locals: seq<Local>, depth: nat, t: Target, p: nat, pool: Pool, decls: seq<Decl>, fixed: set<string>)
    returns (q: nat, o: nat)
    requires |locals| > 0 && cs.MoreCases?
    ensures CheckCases(cs, count, locals, depth, t, p, pool).Some? ==>
              && CheckExpr(cs.first, locals, pool).Some?
              && var b := CheckExprs(cs.more, locals, CheckExpr(cs.first, locals, pool).value);
                 && b.Some? && count < 255
                 && var c := CheckStmt(cs.body, locals, depth, t, q, b.value);
                    c.Some? && CheckCases(cs, count, locals, depth, t, p, pool) == CheckCases(cs.rest, count + 1, locals, depth, t, o, c.value)
    ensures ProperCases(cs, decls, fixed, t.InLoop?) <==>
              && ProperExpr(cs.first, decls, fixed) && ProperExprs(cs.more, decls, fixed)
              && ProperStmt(cs.body, decls, fixed, t.InLoop?) && ProperCases(cs.rest, decls, fixed, t.InLoop?)
    ensures CasesLiterals(cs) == Literals(cs.first) + ExprsLiterals(cs.more) + StmtLiterals(cs.body) + CasesLiterals(cs.rest)
    ensures CasesGlobals(cs, decls) ==
              Globals(cs.first, decls) + ExprsGlobals(cs.more, decls) + StmtGlobals(cs.body, decls) + CasesGlobals(cs.rest, decls)
  {
    hide CheckExpr, ProperExpr, Literals, Globals, StmtLen, ExprLen, ExprsLen, CasesLen, NamesOf, CheckExprs, ProperExprs, ExprsLiterals,
         ExprsGlobals;
    q := p + ExprLen(cs.first) + ExprsLen(cs.more) + MultiLen(cs.more) + 3;
    o := q + StmtLen(cs.body, Extra(NamesOf(locals), t)) + 3;
  }

  /** A declaration in a block. */
  lemma DeclareProper(name: Name, init: Option<Expr>, constant: bool, locals: seq<Local>, depth: nat, t: Target, p: nat, pool: Pool,
      decls: seq<Decl>, own: nat)
    requires Fitting(locals, decls, own, depth) && depth > 0
    ensures |locals| > 0
    ensures Passes(CheckItem(Declare(name, init, constant), locals, depth, t, p, pool),
                   && |decls| < 255 && (forall i :: own <= i < |decls| ==> decls[i].name != name)
                   && ProperInit(init, decls, pool.fixed) && (init.Some? ==> !Occurs(init.value, name)),
                   pool, InitLiterals(init), InitGlobals(init, decls))
  {
    hide Fitting, CheckExpr, ProperExpr, Literals, Globals, Redeclared, Adds;
    FittingLength(locals, decls, own, depth);
    RedeclaredIs(locals, decls, own, depth, name);
    AddsNothing(pool);
    if init.Some? { ExprProper(init.value, locals, Some(name), pool, decls, own, depth); }
  }

  lemma {:induction false} ItemsProper(items: Items, locals: seq<Local>, depth: nat, t: Target, p: nat, pool: Pool, decls: seq<Decl>,
      own: nat)
    requires Fitting(locals, decls, own, depth) && depth > 0
    ensures |locals| > 0
    ensures Passes(CheckItems(items, locals, depth, t, p, pool), ProperItems(items, decls, own, pool.fixed, t.InLoop?), pool,
                   ItemsLiterals(items), ItemsGlobals(items, decls))
    decreases items, 1
  {
    FittingLength(locals, decls, own, depth);
    if items.NoItems? {
      AddsNothing(pool);
    } else if items.head.Declare? {
      DeclaredItemProper(items, locals, depth, t, p, pool, decls, own);
    } else {
      PerformedItemProper(items, locals, depth, t, p, pool, decls, own);
    }
  }

  lemma {:induction false} DeclaredItemProper(items: Items, locals: seq<Local>, depth: nat, t: Target, p: nat, pool: Pool, decls: seq<Decl>,
      own: nat)
    requires Fitting(locals, decls, own, depth) && depth > 0 && items.MoreItems? && items.head.Declare?
    ensures |locals| > 0
    ensures Passes(CheckItems(items, locals, depth, t, p, pool), ProperItems(items, decls, own, pool.fixed, t.InLoop?), pool,
                   ItemsLiterals(items), ItemsGlobals(items, decls))
    decreases items, 0
  {
    hide Fitting, Passes, CheckItem, ProperInit, InitLiterals, InitGlobals, ItemLen, NamesOf, Occurs;
    FittingLength(locals, decls, own, depth);
    var name, init, constant, tail, fixed := items.head.name, items.head.init, items.head.constant, items.tail, pool.fixed;
    var local, decl := locals + [Local(name, depth, constant)], decls + [Decl(name, constant)];
    FittingMore(locals, decls, own, depth, name, constant);
    DeclareProper(name, init, constant, locals, depth, t, p, pool, decls, own);
    var a := CheckItem(items.head, locals, depth, t, p, pool);
    var first := && |decls| < 255 && (forall i :: own <= i < |decls| ==> decls[i].name != name)
                 && ProperInit(init, decls, fixed) && (init.Some? ==> !Occurs(init.value, name));
    SameFixed(a, first, pool, InitLiterals(init), InitGlobals(init, decls));
    var q := p + ItemLen(items.head, depth == 0, Extra(NamesOf(locals), t));
    var b := if a.Some? then CheckItems(tail, local, depth, t, q, a.value) else None;
    if a.Some? { ItemsProper(tail, local, depth, t, q, a.value, decl, own); }
    BothPass(a, b, CheckItems(items, locals, depth, t, p, pool), pool, first, ProperItems(tail, decl, own, fixed, t.InLoop?),
             InitLiterals(init), ItemsLiterals(tail), InitGlobals(init, decls), ItemsGlobals(tail, decl));
  }

  lemma {:induction false} PerformedItemProper(items: Items, locals: seq<Local>, depth: nat, t: Target, p: nat, pool: Pool, decls: seq<Decl>,
      own: nat)
    requires Fitting(locals, decls, own, depth) && depth > 0 && items.MoreItems? && items.head.Perform?
    ensures |locals| > 0
    ensures Passes(CheckItems(items, locals, depth, t, p, pool), ProperItems(items, decls, own, pool.fixed, t.InLoop?), pool,
                   ItemsLiterals(items), ItemsGlobals(items, decls))
    decreases items, 0
  {
    hide Fitting, Passes, CheckStmt, ProperStmt, StmtLiterals, StmtGlobals, ItemLen, NamesOf;
    FittingLength(locals, decls, own, depth);
    var s, tail, fixed := items.head.s, items.tail, pool.fixed;
    StmtProper(s, locals, depth, t, p, pool, decls, own);
    var a := CheckStmt(s, locals, depth, t, p, pool);
    SameFixed(a, ProperStmt(s, decls, fixed, t.InLoop?), pool, StmtLiterals(s), StmtGlobals(s, decls));
    var q := p + ItemLen(items.head, depth == 0, Extra(NamesOf(locals), t));
    var b := if a.Some? then CheckItems(tail, locals, depth, t, q, a.value) else None;
    if a.Some? { ItemsProper(tail, locals, depth, t, q, a.value, decls, own); }
    assert CheckItem(items.head, locals, depth, t, p, pool) == a;
    BothPass(a, b, CheckItems(items, locals, depth, t, p, pool), pool, ProperStmt(s, decls, fixed, t.InLoop?),
             ProperItems(tail, decls, own, fixed, t.InLoop?), StmtLiterals(s), ItemsLiterals(tail), StmtGlobals(s, decls), ItemsGlobals(tail, decls));
  }

  // ---- what is proper and not too long is accepted ----

  /** `n` more literals, and the names in `all`, fit into the constants. */
  predicate Room(pool: Pool, n: int, all: set<string>) {
    n >= 0 && pool.index.Keys <= all && |pool.constants| - |pool.index.Keys| + n + |all| <= 256
  }

  /** The check is passed, and `n` more literals still fit. */
  predicate Accepts(r: Option<Pool>, pool: Pool, n: int, all: set<string>) {
    r.Some? && r.value.fixed == pool.fixed && Room(r.value, n, all)
  }

  lemma RoomLeft(r: Option<Pool>, proper: bool, pool: Pool, k: nat, globals: set<string>, n: int, all: set<string>)
    requires r.Some? && Passes(r, proper, pool, k, globals) && Room(pool, n, all) && k <= n && globals <= all
    ensures Accepts(r, pool, n - k, all)
  {
  }

  lemma RoomForName(pool: Pool, name: string, n: int, all: set<string>)
    requires Room(pool, n, all) && name in all
    ensures AddName(pool, name).Some?
  {
    if name !in pool.index {
      assert name in all - pool.index.Keys;
      assert |all| == |pool.index.Keys| + |all - pool.index.Keys|;
    }
  }

  lemma RoomForLiteral(pool: Pool, n: int, all: set<string>)
    requires Room(pool, n, all) && n > 0
    ensures |pool.constants| < 256
  {
    assert |all| == |pool.index.Keys| + |all - pool.index.Keys|;
  }

  lemma {:induction false} ExprAccepted(e: Expr, locals: seq<Local>, pending: Option<string>, pool: Pool, decls: seq<Decl>, own: nat,
      depth: nat, n: int, all: set<string>)
    requires Fitting(locals, decls, own, depth) && Clean(e, pending, decls, pool.fixed) && ExprLen(e) <= MAX_JUMP
    requires Room(pool, n, all) && Literals(e) <= n && Globals(e, decls) <= all
    ensures Accepts(CheckExpr(e, Pending(locals, pending), pool), pool, n - Literals(e), all)
    decreases e, 3
  {
    hide Fitting, Room, Passes, CheckExpr, Clean, Literals, Globals, ExprLen, Pending;
    ExprProper(e, locals, pending, pool, decls, own, depth);
    ExprChecked(e, locals, pending, pool, decls, own, depth, n, all);
    RoomLeft(CheckExpr(e, Pending(locals, pending), pool), Clean(e, pending, decls, pool.fixed), pool, Literals(e), Globals(e, decls), n, all);
  }

  lemma {:induction false} ExprChecked(e: Expr, locals: seq<Local>, pending: Option<string>, pool: Pool, decls: seq<Decl>, own: nat,
      depth: nat, n: int, all: set<string>)
    requires Fitting(locals, decls, own, depth) && Clean(e, pending, decls, pool.fixed) && ExprLen(e) <= MAX_JUMP
    requires Room(pool, n, all) && Literals(e) <= n && Globals(e, decls) <= all
    ensures CheckExpr(e, Pending(locals, pending), pool).Some?
    decreases e, 2
  {
    hide Fitting, Pending, Room;
    match e
    case Literal(v) => if Literals(e) > 0 { RoomForLiteral(pool, n, all); }
    case Variable(name) => VariableAccepted(name, locals, pending, pool, decls, own, depth, n, all);
    case Assign(name, rhs) => AssignAccepted(name, rhs, locals, pending, pool, decls, own, depth, n, all);
    case Not(e1) => ExprAccepted(e1, locals, pending, pool, decls, own, depth, n, all);
    case Negate(e1) => ExprAccepted(e1, locals, pending, pool, decls, own, depth, n, all);
    case Binary(_, l, r) => BinaryAccepted(e, l, r, locals, pending, pool, decls, own, depth, n, all);
    case And(l, r) => BinaryAccepted(e, l, r, locals, pending, pool, decls, own, depth, n, all);
    case Or(l, r) => BinaryAccepted(e, l, r, locals, pending, pool, decls, own, depth, n, all);
    case Ternary(_, _, _) => TernaryAccepted(e, locals, pending, pool, decls, own, depth, n, all);
  }

  lemma {:induction false} BinaryAccepted(e: Expr, l: Expr, r: Expr, locals: seq<Local>, pending: Option<string>, pool: Pool, decls: seq<Decl>,
      own: nat, depth: nat, n: int, all: set<string>)
    requires e == And(l, r) || e == Or(l, r) || (e.Binary? && e == Binary(e.op, l, r))
    requires Fitting(locals, decls, own, depth) && Clean(e, pending, decls, pool.fixed) && ExprLen(e) <= MAX_JUMP
    requires Room(pool, n, all) && Literals(e) <= n && Globals(e, decls) <= all
    ensures CheckExpr(e, Pending(locals, pending), pool).Some?
    decreases e, 1
  {
    hide Fitting, Pending, Room, CheckExpr, Clean, Literals, Globals, ExprLen;
    BinaryIs(e, l, r, Pending(locals, pending), pending, pool, decls, pool.fixed);
    BinaryFits(e, l, r, Pending(locals, pending), pool);
    PairAccepted(l, r, locals, pending, pool, decls, own, depth, n, all, e);
  }

  lemma BinaryFits(e: Expr, l: Expr, r: Expr, locals: seq<Local>, pool: Pool)
    requires e == And(l, r) || e == Or(l, r) || (e.Binary? && e == Binary(e.op, l, r))
    requires ExprLen(e) <= MAX_JUMP
    ensures ExprLen(l) + ExprLen(r) <= MAX_JUMP
    ensures CheckExpr(l, locals, pool).Some? ==>
      CheckExpr(e, locals, pool) == CheckExpr(r, locals, CheckExpr(l, locals, pool).value)
  {
  }

  lemma {:induction false} TernaryAccepted(e: Expr, locals: seq<Local>, pending: Option<string>, pool: Pool, decls: seq<Decl>, own: nat,
      depth: nat, n: int, all: set<string>)
    requires Fitting(locals, decls, own, depth) && e.Ternary? && Clean(e, pending, decls, pool.fixed) && ExprLen(e) <= MAX_JUMP
    requires Room(pool, n, all) && Literals(e) <= n && Globals(e, decls) <= all
    ensures CheckExpr(e, Pending(locals, pending), pool).Some?
    decreases e, 1
  {
    hide Fitting, Pending, Room, CheckExpr, Clean, Literals, Globals, ExprLen;
    var locals' := Pending(locals, pending);
    TernaryIs(e, locals', pending, pool, decls, pool.fixed);
    TernaryFits(e, locals', pool);
    PairAccepted(e.cond, e.yes, locals, pending, pool, decls, own, depth, n, all, e);
    var b := CheckExpr(e.yes, locals', CheckExpr(e.cond, locals', pool).value).value;
    ExprAccepted(e.no, locals, pending, b, decls, own, depth, n - Literals(e.cond) - Literals(e.yes), all);
  }

  lemma TernaryFits(e: Expr, locals: seq<Local>, pool: Pool)
    requires e.Ternary? && ExprLen(e) <= MAX_JUMP
    ensures ExprLen(e.cond) + ExprLen(e.yes) + ExprLen(e.no) <= MAX_JUMP
    ensures CheckExpr(e.cond, locals, pool).Some? ==>
      var b := CheckExpr(e.yes, locals, CheckExpr(e.cond, locals, pool).value);
      b.Some? ==> CheckExpr(e, locals, pool) == CheckExpr(e.no, locals, b.value)
  {
  }

  lemma VariableAccepted(name: Name, locals: seq<Local>, pending: Option<string>, pool: Pool, decls: seq<Decl>, own: nat, depth: nat,
      n: int, all: set<string>)
    requires Fitting(locals, decls, own, depth) && pending != Some(name) && Room(pool, n, all) && Globals(Variable(name), decls) <= all
    ensures CheckExpr(Variable(name), Pending(locals, pending), pool).Some?
  {
    hide Fitting, Pending, Slot, AddName, Room, IsLocal, Assignable;
    SlotIs(locals, decls, own, depth, {}, name);
    PendingSlot(locals, pending, name);
    if !IsLocal(decls, name) { RoomForName(pool, name, n, all); }
  }

  lemma {:induction false} PairAccepted(l: Expr, r: Expr, locals: seq<Local>, pending: Option<string>, pool: Pool, decls: seq<Decl>,
      own: nat, depth: nat, n: int, all: set<string>, e: Expr)
    requires Fitting(locals, decls, own, depth) && l < e && r < e
    requires Clean(l, pending, decls, pool.fixed) && Clean(r, pending, decls, pool.fixed) && ExprLen(l) + ExprLen(r) <= MAX_JUMP
    requires Room(pool, n, all) && Literals(l) + Literals(r) <= n && Globals(l, decls) + Globals(r, decls) <= all
    ensures var a := CheckExpr(l, Pending(locals, pending), pool);
            a.Some? && var b := CheckExpr(r, Pending(locals, pending), a.value); Accepts(b, pool, n - Literals(l) - Literals(r), all)
    decreases e, 0
  {
    hide Fitting, Pending, Clean, CheckExpr, Room, Literals, Globals, ExprLen;
    ExprAccepted(l, locals, pending, pool, decls, own, depth, n, all);
    var a := CheckExpr(l, Pending(locals, pending), pool);
    ExprAccepted(r, locals, pending, a.value, decls, own, depth, n - Literals(l), all);
  }

  lemma {:induction false} AssignAccepted(name: Name, rhs: Expr, locals: seq<Local>, pending: Option<string>, pool: Pool, decls: seq<Decl>,
      own: nat, depth: nat, n: int, all: set<string>)
    requires Fitting(locals, decls, own, depth)
    requires Clean(Assign(name, rhs), pending, decls, pool.fixed) && ExprLen(rhs) <= MAX_JUMP
    requires Room(pool, n, all) && Literals(rhs) <= n && Globals(Assign(name, rhs), decls) <= all
    ensures CheckExpr(Assign(name, rhs), Pending(locals, pending), pool).Some?
    decreases Assign(name, rhs), 0
  {
    hide Fitting, IsLocal, Assignable, Pending, Slot, AddName, Room, Passes;
    SlotIs(locals, decls, own, depth, pool.fixed, name);
    PendingSlot(locals, pending, name);
    if !IsLocal(decls, name) { RoomForName(pool, name, n, all); }
    StoreProper(name, locals, pending, pool, decls, own, depth);
    var a := CheckWrite(name, Pending(locals, pending), pool);
    RoomLeft(a, pending != Some(name) && Assignable(decls, pool.fixed, name), pool, 0, if IsLocal(decls, name) then {} else {name}, n, all);
    ExprAccepted(rhs, locals, pending, a.value, decls, own, depth, n, all);
  }

  lemma ValueAccepted(e: Expr, locals: seq<Local>, pool: Pool, decls: seq<Decl>, own: nat, depth: nat, n: int, all: set<string>)
    requires Fitting(locals, decls, own, depth) && ProperExpr(e, decls, pool.fixed) && ExprLen(e) <= MAX_JUMP
    requires Room(pool, n, all) && Literals(e) <= n && Globals(e, decls) <= all
    ensures Accepts(CheckExpr(e, locals, pool), pool, n - Literals(e), all)
  {
    hide Fitting, Room, CheckExpr, ProperExpr, Literals, Globals, ExprLen;
    ExprAccepted(e, locals, None, pool, decls, own, depth, n, all);
  }

  lemma InitAccepted(init: Option<Expr>, locals: seq<Local>, pool: Pool, decls: seq<Decl>, own: nat, depth: nat, n: int, all: set<string>)
    requires Fitting(locals, decls, own, depth) && ProperInit(init, decls, pool.fixed) && InitLen(init) <= MAX_JUMP
    requires Room(pool, n, all) && InitLiterals(init) <= n && InitGlobals(init, decls) <= all
    ensures Accepts(CheckInit(init, locals, pool), pool, n - InitLiterals(init), all)
  {
    hide Fitting, Room, CheckExpr, ProperExpr, Literals, Globals, ExprLen;
    if init.Some? { ValueAccepted(init.value, locals, pool, decls, own, depth, n, all); }
  }

  lemma {:induction false} ExprsAccepted(es: Exprs, locals: seq<Local>, pool: Pool, decls: seq<Decl>, own: nat, depth: nat, n: int,
      all: set<string>)
    requires Fitting(locals, decls, own, depth) && ProperExprs(es, decls, pool.fixed) && ExprsLen(es) <= MAX_JUMP
    requires Room(pool, n, all) && ExprsLiterals(es) <= n && ExprsGlobals(es, decls) <= all
    ensures Accepts(CheckExprs(es, locals, pool), pool, n - ExprsLiterals(es), all)
    decreases es
  {
    hide Fitting, Room, CheckExpr, ProperExpr, Literals, Globals, ExprLen;
    if es.MoreExprs? {
      ValueAccepted(es.head, locals, pool, decls, own, depth, n, all);
      ExprsAccepted(es.tail, locals, CheckExpr(es.head, locals, pool).value, decls, own, depth, n - Literals(es.head), all);
    }
  }

  lemma {:induction false} StmtAccepted(s: Stmt, locals: seq<Local>, depth: nat, t: Target, p: nat, pool: Pool, decls: seq<Decl>, own: nat,
      n: int, all: set<string>)
    requires Fitting(locals, decls, own, depth) && |locals| > 0 && ProperStmt(s, decls, pool.fixed, t.InLoop?)
    requires Base(t) < |locals| && p + StmtLen(s, Extra(NamesOf(locals), t)) <= MAX_JUMP
    requires Room(pool, n, all) && StmtLiterals(s) <= n && StmtGlobals(s, decls) <= all
    ensures Accepts(CheckStmt(s, locals, depth, t, p, pool), pool, n - StmtLiterals(s), all)
    decreases s, 1
  {
    hide Fitting, Room, CheckExpr, ProperExpr, Literals, Globals, ExprLen, NamesOf, CheckItems, ProperItems, ItemsLen, ItemsLiterals,
         ItemsGlobals, Declared;
    match s
    case Evaluate(e) => ValueAccepted(e, locals, pool, decls, own, depth, n, all);
    case Block(items) =>
      Deeper(locals, decls, own, depth);
      ItemsAccepted(items, locals, depth + 1, t, p, pool, decls, |decls|, n, all);
    case If(c, yes, no) => IfAccepted(s, locals, depth, t, p, pool, decls, own, n, all);
    case While(test, body) => WhileAccepted(s, locals, depth, t, p, pool, decls, own, n, all);
    case For(init, test, step, body) => ForStmtAccepted(s, locals, depth, t, p, pool, decls, own, n, all);
    case Switch(subject, cases) => SwitchAccepted(s, locals, depth, t, p, pool, decls, own, n, all);
    case Break =>
    case Continue =>
  }

  lemma {:induction false} IfAccepted(s: Stmt, locals: seq<Local>, depth: nat, t: Target, p: nat, pool: Pool, decls: seq<Decl>, own: nat,
      n: int, all: set<string>)
    requires Fitting(locals, decls, own, depth) && |locals| > 0 && s.If? && ProperStmt(s, decls, pool.fixed, t.InLoop?)
    requires Base(t) < |locals| && p + StmtLen(s, Extra(NamesOf(locals), t)) <= MAX_JUMP
    requires Room(pool, n, all) && StmtLiterals(s) <= n && StmtGlobals(s, decls) <= all
    ensures Accepts(CheckStmt(s, locals, depth, t, p, pool), pool, n - StmtLiterals(s), all)
    decreases s, 0
  {
    hide Fitting, Room, CheckExpr, ProperExpr, Literals, Globals, ExprLen, NamesOf;
    ValueAccepted(s.cond, locals, pool, decls, own, depth, n, all);
    var a := CheckExpr(s.cond, locals, pool).value;
    var left := n - Literals(s.cond);
    StmtAccepted(s.yes, locals, depth, t, p + ExprLen(s.cond) + 4, a, decls, own, left, all);
    var b := CheckStmt(s.yes, locals, depth, t, p + ExprLen(s.cond) + 4, a).value;
    if s.no.Some? {
      StmtAccepted(s.no.value, locals, depth, t, p + ExprLen(s.cond) + StmtLen(s.yes, Extra(NamesOf(locals), t)) + 8, b, decls, own,
                   left - StmtLiterals(s.yes), all);
    }
  }

  lemma {:induction false} WhileAccepted(s: Stmt, locals: seq<Local>, depth: nat, t: Target, p: nat, pool: Pool, decls: seq<Decl>, own: nat,
      n: int, all: set<string>)
    requires Fitting(locals, decls, own, depth) && |locals| > 0 && s.While? && ProperStmt(s, decls, pool.fixed, t.InLoop?)
    requires Base(t) < |locals| && p + StmtLen(s, Extra(NamesOf(locals), t)) <= MAX_JUMP
    requires Room(pool, n, all) && StmtLiterals(s) <= n && StmtGlobals(s, decls) <= all
    ensures Accepts(CheckStmt(s, locals, depth, t, p, pool), pool, n - StmtLiterals(s), all)
    decreases s, 0
  {
    hide Fitting, Room, CheckInit, ProperInit, InitLiterals, InitGlobals, NamesOf;
    InitAccepted(s.test, locals, pool, decls, own, depth, n, all);
    var a := CheckInit(s.test, locals, pool).value;
    var inside := InLoop(p, |locals| - 1, None);
    InsideExtra(locals, inside);
    StmtAccepted(s.body, locals, depth, inside, p + InitLen(s.test) + 4, a, decls, own, n - InitLiterals(s.test), all);
    assert CheckStmt(s, locals, depth, t, p, pool) == CheckWhile(s.test, s.body, locals, depth, p, pool);
  }

  lemma InsideExtra(locals: seq<Local>, t: Target)
    requires |locals| > 0 && t.InLoop? && t.base == |locals| - 1
    ensures Extra(NamesOf(locals), t) == 0
  {
  }

  lemma {:induction false} ForStmtAccepted(s: Stmt, locals: seq<Local>, depth: nat, t: Target, p: nat, pool: Pool, decls: seq<Decl>, own: nat,
      n: int, all: set<string>)
    requires Fitting(locals, decls, own, depth) && |locals| > 0 && s.For? && ProperStmt(s, decls, pool.fixed, t.InLoop?)
    requires Base(t) < |locals| && p + StmtLen(s, Extra(NamesOf(locals), t)) <= MAX_JUMP
    requires Room(pool, n, all) && StmtLiterals(s) <= n && StmtGlobals(s, decls) <= all
    ensures Accepts(CheckStmt(s, locals, depth, t, p, pool), pool, n - StmtLiterals(s), all)
    decreases s, 0
  {
    hide Fitting, Room, CheckItems, ProperItems, CheckFor, ProperInit, InitLiterals, InitGlobals, ItemsLiterals, ItemsGlobals, ScopeAll,
         With, ItemsLen, NamesOf, Declared, TestLen, StepLen;
    Deeper(locals, decls, own, depth);
    FittingWith(locals, decls, |decls|, depth + 1, s.init);
    var more, inner := With(decls, s.init), ScopeAll(locals, s.init, depth + 1);
    ItemsAccepted(s.init, locals, depth + 1, t, p, pool, decls, |decls|, n, all);
    var a := CheckItems(s.init, locals, depth + 1, t, p, pool).value;
    ForAccepted(s.test, s.step, s.body, inner, depth + 1, p + ItemsLen(s.init, false, Extra(NamesOf(locals), t)), a, more, |decls|,
                n - ItemsLiterals(s.init), all);
  }

  lemma {:induction false} ForAccepted(test: Option<Expr>, step: Option<Expr>, body: Stmt, locals: seq<Local>, depth: nat, p: nat, pool: Pool,
      decls: seq<Decl>, own: nat, n: int, all: set<string>)
    requires Fitting(locals, decls, own, depth) && |locals| > 0
    requires ProperInit(test, decls, pool.fixed) && ProperInit(step, decls, pool.fixed) && ProperStmt(body, decls, pool.fixed, true)
    requires p + TestLen(test) + StepLen(step) + StmtLen(body, 0) + 3 <= MAX_JUMP
    requires Room(pool, n, all) && InitLiterals(test) + InitLiterals(step) + StmtLiterals(body) <= n
    requires InitGlobals(test, decls) + InitGlobals(step, decls) + StmtGlobals(body, decls) <= all
    ensures Accepts(CheckFor(test, step, body, locals, depth, p, pool), pool,
                    n - InitLiterals(test) - InitLiterals(step) - StmtLiterals(body), all)
    decreases body, 2
  {
    hide Fitting, Room, CheckInit, ProperInit, InitLiterals, InitGlobals, NamesOf, CheckStmt, ProperStmt, StmtLiterals, StmtGlobals, StmtLen;
    InitAccepted(test, locals, pool, decls, own, depth, n, all);
    var a := CheckInit(test, locals, pool).value;
    InitAccepted(step, locals, a, decls, own, depth, n - InitLiterals(test), all);
    var b := CheckInit(step, locals, a).value;
    var q := p + TestLen(test);
    var inside := InLoop(if step.Some? then q + 3 else p, |locals| - 1, None);
    InsideExtra(locals, inside);
    StmtAccepted(body, locals, depth, inside, q + StepLen(step), b, decls, own, n - InitLiterals(test) - InitLiterals(step), all);
  }

  lemma {:induction false} SwitchAccepted(s: Stmt, locals: seq<Local>, depth: nat, t: Target, p: nat, pool: Pool, decls: seq<Decl>, own: nat,
      n: int, all: set<string>)
    requires Fitting(locals, decls, own, depth) && |locals| > 0 && s.Switch? && ProperStmt(s, decls, pool.fixed, t.InLoop?)
    requires Base(t) < |locals| && p + StmtLen(s, Extra(NamesOf(locals), t)) <= MAX_JUMP
    requires Room(pool, n, all) && StmtLiterals(s) <= n && StmtGlobals(s, decls) <= all
    ensures Accepts(CheckStmt(s, locals, depth, t, p, pool), pool, n - StmtLiterals(s), all)
    decreases s, 0
  {
    hide Fitting, Room, CheckExpr, ProperExpr, Literals, Globals, ExprLen, NamesOf, CheckCases, ProperCases, CasesLiterals, CasesGlobals,
         CasesLen;
    ValueAccepted(s.subject, locals, pool, decls, own, depth, n, all);
    CasesAccepted(s.cases, 0, locals, depth, t, p + ExprLen(s.subject), CheckExpr(s.subject, locals, pool).value, decls, own,
                  n - Literals(s.subject), all);
  }

  lemma {:induction false} CasesAccepted(cs: Cases, count: nat, locals: seq<Local>, depth: nat, t: Target, p: nat, pool: Pool,
      decls: seq<Decl>, own: nat, n: int, all: set<string>)
    requires Fitting(locals, decls, own, depth) && |locals| > 0 && ProperCases(cs, decls, pool.fixed, t.InLoop?)
    requires count + Labels(cs) <= 255 && Base(t) < |locals| && p + CasesLen(cs, Extra(NamesOf(locals), t)) <= MAX_JUMP
    requires Room(pool, n, all) && CasesLiterals(cs) <= n && CasesGlobals(cs, decls) <= all
    ensures Accepts(CheckCases(cs, count, locals, depth, t, p, pool), pool, n - CasesLiterals(cs), all)
    decreases cs, 1
  {
    hide Fitting, Room, CheckExpr, ProperExpr, Literals, Globals, ExprLen, NamesOf, CheckExprs, ProperExprs, ExprsLiterals, ExprsGlobals,
         ExprsLen, CheckStmt, ProperStmt, StmtLiterals, StmtGlobals, StmtLen;
    var extra := Extra(NamesOf(locals), t);
    match cs
    case Otherwise(default) => if default.Some? { StmtAccepted(default.value, locals, depth, t, p + 1, pool, decls, own, n, all); }
    case MoreCases(first, more, body, rest) =>
      ValueAccepted(first, locals, pool, decls, own, depth, n, all);
      var a := CheckExpr(first, locals, pool).value;
      ExprsAccepted(more, locals, a, decls, own, depth, n - Literals(first), all);
      var b := CheckExprs(more, locals, a).value;
      var k := p + ExprLen(first) + ExprsLen(more) + MultiLen(more) + 3;
      var left := n - Literals(first) - ExprsLiterals(more);
      StmtAccepted(body, locals, depth, t, k, b, decls, own, left, all);
      var c := CheckStmt(body, locals, depth, t, k, b).value;
      CasesAccepted(rest, count + 1, locals, depth, t, k + StmtLen(body, extra) + 3, c, decls, own, left - StmtLiterals(body), all);
  }

  lemma {:induction false} ItemsAccepted(items: Items, locals: seq<Local>, depth: nat, t: Target, p: nat, pool: Pool, decls: seq<Decl>,
      own: nat, n: int, all: set<string>)
    requires Fitting(locals, decls, own, depth) && |locals| > 0 && depth > 0 && ProperItems(items, decls, own, pool.fixed, t.InLoop?)
    requires Base(t) < |locals| && p + ItemsLen(items, false, Extra(NamesOf(locals), t)) <= MAX_JUMP
    requires Room(pool, n, all) && ItemsLiterals(items) <= n && ItemsGlobals(items, decls) <= all
    ensures Accepts(CheckItems(items, locals, depth, t, p, pool), pool, n - ItemsLiterals(items), all)
    decreases items, 1
  {
    hide Fitting, Room, NamesOf, CheckItem, ProperStmt, CheckStmt, StmtLiterals, StmtGlobals, StmtLen, ProperInit, InitLiterals, InitGlobals,
         InitLen, Occurs;
    if items.MoreItems? {
      var head, extra := items.head, Extra(NamesOf(locals), t);
      var q := p + ItemLen(head, false, extra);
      match head
      case Declare(name, init, constant) =>
        DeclareAccepted(name, init, constant, locals, depth, t, p, pool, decls, own, n, all);
        var local, decl := locals + [Local(name, depth, constant)], decls + [Decl(name, constant)];
        FittingMore(locals, decls, own, depth, name, constant);
        OneMoreExtra(locals, Local(name, depth, constant), t);
        ItemsAccepted(items.tail, local, depth, t, q, CheckItem(head, locals, depth, t, p, pool).value, decl, own, n - InitLiterals(init), all);
      case Perform(s) =>
        StmtAccepted(s, locals, depth, t, p, pool, decls, own, n, all);
        PerformIs(s, locals, depth, t, p, pool);
        ItemsAccepted(items.tail, locals, depth, t, q, CheckItem(head, locals, depth, t, p, pool).value, decls, own, n - StmtLiterals(s), all);
    }
  }

  lemma PerformIs(s: Stmt, locals: seq<Local>, depth: nat, t: Target, p: nat, pool: Pool)
    requires |locals| > 0
    ensures CheckItem(Perform(s), locals, depth, t, p, pool) == CheckStmt(s, locals, depth, t, p, pool)
  {
  }

  lemma OneMoreExtra(locals: seq<Local>, l: Local, t: Target)
    requires |locals| > 0 && Base(t) < |locals|
    ensures Extra(NamesOf(locals + [l]), t) == Extra(NamesOf(locals), t) + 1
  {
  }

  lemma DeclareAccepted(name: Name, init: Option<Expr>, constant: bool, locals: seq<Local>, depth: nat, t: Target, p: nat, pool: Pool,
      decls: seq<Decl>, own: nat, n: int, all: set<string>)
    requires Fitting(locals, decls, own, depth) && |locals| > 0 && depth > 0 && |decls| < 255
    requires forall i :: own <= i < |decls| ==> decls[i].name != name
    requires ProperInit(init, decls, pool.fixed) && (init.Some? ==> !Occurs(init.value, name)) && InitLen(init) <= MAX_JUMP
    requires Room(pool, n, all) && InitLiterals(init) <= n && InitGlobals(init, decls) <= all
    ensures Accepts(CheckItem(Declare(name, init, constant), locals, depth, t, p, pool), pool, n - InitLiterals(init), all)
  {
    hide Fitting, Room, CheckExpr, ProperExpr, Literals, Globals, ExprLen, Redeclared, Occurs;
    FittingLength(locals, decls, own, depth);
    RedeclaredIs(locals, decls, own, depth, name);
    if init.Some? { ExprAccepted(init.value, locals, Some(name), pool, decls, own, depth, n, all); }
  }

  // ---- programs ----

  lemma GrowsBoth(a: Pool, b: Pool, c: Pool, k: nat, l: nat, s: set<string>, t: set<string>)
    requires Grows(a, b, k, s) && Grows(b, c, l, t)
    ensures Grows(a, c, k + l, s + t)
  {
  }

  lemma GlobalProper(name: Name, init: Option<Expr>, constant: bool, locals: seq<Local>, t: Target, p: nat, pool: Pool)
    requires locals == [Local("", 0, false)] && CheckItem(Declare(name, init, constant), locals, 0, t, p, pool).Some?
    ensures ProperInit(init, [], pool.fixed)
    ensures var r := CheckItem(Declare(name, init, constant), locals, 0, t, p, pool).value;
            && r.fixed == (if constant then pool.fixed + {name} else pool.fixed)
            && Grows(pool, r, InitLiterals(init), {name} + InitGlobals(init, []))
  {
    hide CheckInit, ProperInit, InitLiterals, InitGlobals, AddName, Grows;
    NameAdds(pool, name);
    var a := AddName(pool, name).value;
    InitProper(init, locals, a, [], 0, 0);
    var b := CheckInit(init, locals, a).value;
    AddsBoth(pool, a, b, 0, InitLiterals(init), {name}, InitGlobals(init, []));
    FixedGrows(pool, b, pool.fixed + {name}, InitLiterals(init), {name} + InitGlobals(init, []));
  }

  lemma FixedGrows(pool: Pool, r: Pool, fixed: set<string>, k: nat, globals: set<string>)
    requires Grows(pool, r, k, globals)
    ensures Grows(pool, r.(fixed := fixed), k, globals)
  {
  }

  lemma {:induction false} ProgramProper(items: Items, locals: seq<Local>, p: nat, pool: Pool)
    requires locals == [Local("", 0, false)] && CheckItems(items, locals, 0, NoLoop, p, pool).Some?
    ensures ProperProgram(items, pool.fixed)
    ensures Grows(pool, CheckItems(items, locals, 0, NoLoop, p, pool).value, ItemsLiterals(items), ProgramGlobals(items))
    decreases items
  {
    hide Grows, CheckItem, ItemLen, NamesOf, CheckItems, ProperProgram, ItemsLiterals, ProgramGlobals;
    if items.NoItems? {
      NoProgram(items, locals, p, pool);
    } else {
      var q := p + ItemLen(items.head, true, Extra(NamesOf(locals), NoLoop));
      ItemsAre(items, locals, 0, NoLoop, p, q, pool);
      var a := CheckItem(items.head, locals, 0, NoLoop, p, pool).value;
      var k, g := HeadProper(items, locals, p, pool);
      ProgramProper(items.tail, locals, q, a);
      GrowsBoth(pool, a, CheckItems(items.tail, locals, 0, NoLoop, q, a).value, k, ItemsLiterals(items.tail), g, ProgramGlobals(items.tail));
    }
  }

  lemma ItemsAre(items: Items, locals: seq<Local>, depth: nat, t: Target, p: nat, q: nat, pool: Pool)
    requires |locals| > 0 && items.MoreItems? && q == p + ItemLen(items.head, depth == 0, Extra(NamesOf(locals), t))
    ensures CheckItems(items, locals, depth, t, p, pool) ==
              if CheckItem(items.head, locals, depth, t, p, pool).None? then None
              else CheckItems(items.tail, Scope(locals, items.head, depth), depth, t, q, CheckItem(items.head, locals, depth, t, p, pool).value)
  {
    hide CheckItem, ItemLen, NamesOf;
  }

  lemma HeadProper(items: Items, locals: seq<Local>, p: nat, pool: Pool) returns (k: nat, g: set<string>)
    requires items.MoreItems? && locals == [Local("", 0, false)] && CheckItem(items.head, locals, 0, NoLoop, p, pool).Some?
    ensures var a := CheckItem(items.head, locals, 0, NoLoop, p, pool).value;
            Grows(pool, a, k, g) && (ProperProgram(items.tail, a.fixed) ==> ProperProgram(items, pool.fixed))
    ensures ItemsLiterals(items) == k + ItemsLiterals(items.tail) && ProgramGlobals(items) == g + ProgramGlobals(items.tail)
  {
    hide CheckItem, Grows, ProperProgram, ItemsLiterals, ProgramGlobals;
    match items.head
    case Declare(name, init, constant) =>
      GlobalIs(items, pool.fixed);
      GlobalProper(name, init, constant, locals, NoLoop, p, pool);
      return InitLiterals(init), {name} + InitGlobals(init, []);
    case Perform(s) =>
      StatementIs(items, pool.fixed);
      StatementProper(s, locals, p, pool);
      return StmtLiterals(s), StmtGlobals(s, []);
  }

  lemma GlobalIs(items: Items, fixed: set<string>)
    requires items.MoreItems? && items.head.Declare?
    ensures var h := items.head;
            && (ProperProgram(items, fixed) <==>
                  ProperInit(h.init, [], fixed) && ProperProgram(items.tail, if h.constant then fixed + {h.name} else fixed))
            && ItemsLiterals(items) == InitLiterals(h.init) + ItemsLiterals(items.tail)
            && ProgramGlobals(items) == {h.name} + InitGlobals(h.init, []) + ProgramGlobals(items.tail)
  {
    hide ProperInit, InitLiterals, InitGlobals;
  }

  lemma StatementIs(items: Items, fixed: set<string>)
    requires items.MoreItems? && items.head.Perform?
    ensures var s := items.head.s;
            && (ProperProgram(items, fixed) <==> ProperStmt(s, [], fixed, false) && ProperProgram(items.tail, fixed))
            && ItemsLiterals(items) == StmtLiterals(s) + ItemsLiterals(items.tail)
            && ProgramGlobals(items) == StmtGlobals(s, []) + ProgramGlobals(items.tail)
  {
    hide ProperStmt, StmtLiterals, StmtGlobals;
  }

  lemma StatementProper(s: Stmt, locals: seq<Local>, p: nat, pool: Pool)
    requires locals == [Local("", 0, false)] && CheckItem(Perform(s), locals, 0, NoLoop, p, pool).Some?
    ensures var a := CheckItem(Perform(s), locals, 0, NoLoop, p, pool).value;
            a.fixed == pool.fixed && ProperStmt(s, [], pool.fixed, false) && Grows(pool, a, StmtLiterals(s), StmtGlobals(s, []))
  {
    hide CheckItem, CheckStmt, ProperStmt, StmtLiterals, StmtGlobals, Grows;
    PerformIs(s, locals, 0, NoLoop, p, pool);
    StmtProper(s, locals, 0, NoLoop, p, pool, [], 0);
  }

  lemma NoProgram(items: Items, locals: seq<Local>, p: nat, pool: Pool)
    requires items.NoItems? && |locals| > 0
    ensures CheckItems(items, locals, 0, NoLoop, p, pool) == Some(pool) && ProperProgram(items, pool.fixed)
    ensures Grows(pool, pool, ItemsLiterals(items), ProgramGlobals(items))
  {
  }

  lemma {:induction false} ProgramAccepted(items: Items, p: nat, pool: Pool, n: int, all: set<string>)
    requires ProperProgram(items, pool.fixed) && p + ItemsLen(items, true, 0) <= MAX_JUMP
    requires Room(pool, n, all) && ItemsLiterals(items) <= n && ProgramGlobals(items) <= all
    ensures CheckItems(items, [Local("", 0, false)], 0, NoLoop, p, pool).Some?
    decreases items
  {
    hide CheckItem, ProperInit, InitLiterals, InitGlobals, ProperStmt, StmtLiterals, StmtGlobals, Room, NamesOf, StmtLen, InitLen;
    var locals := [Local("", 0, false)];
    if items.MoreItems? {
      assert NamesOf(locals) == [];
      var q := p + ItemLen(items.head, true, 0);
      match items.head
      case Declare(name, init, constant) =>
        GlobalAccepted(name, init, constant, locals, p, pool, n, all);
        ProgramAccepted(items.tail, q, CheckItem(items.head, locals, 0, NoLoop, p, pool).value, n - InitLiterals(init), all);
      case Perform(s) =>
        PerformIs(s, locals, 0, NoLoop, p, pool);
        StmtAccepted(s, locals, 0, NoLoop, p, pool, [], 0, n, all);
        ProgramAccepted(items.tail, q, CheckItem(items.head, locals, 0, NoLoop, p, pool).value, n - StmtLiterals(s), all);
    }
  }

  lemma GlobalAccepted(name: Name, init: Option<Expr>, constant: bool, locals: seq<Local>, p: nat, pool: Pool, n: int, all: set<string>)
    requires locals == [Local("", 0, false)] && ProperInit(init, [], pool.fixed) && InitLen(init) <= MAX_JUMP
    requires Room(pool, n, all) && InitLiterals(init) <= n && name in all && InitGlobals(init, []) <= all
    ensures var r := CheckItem(Declare(name, init, constant), locals, 0, NoLoop, p, pool);
            && r.Some? && r.value.fixed == (if constant then pool.fixed + {name} else pool.fixed)
            && Room(r.value, n - InitLiterals(init), all)
  {
    hide CheckInit, ProperInit, InitLiterals, InitGlobals, AddName, Passes, InitLen;
    RoomForName(pool, name, n, all);
    NameAdds(pool, name);
    var a := AddName(pool, name).value;
    assert Room(a, n, all);
    InitAccepted(init, locals, a, [], 0, 0, n, all);
  }

  /** It assigns no constant, declares no variable twice in one block, mentions none in its own initialiser, has `break` and
      `continue` in loops only, never more than 255 variables in scope, at most 255 cases in a switch, and 256 constants. */
  predicate Proper(program: Items) {
    ProperProgram(program, {}) && ItemsLiterals(program) + |ProgramGlobals(program)| <= 256
  }

  /** A program that compiles is proper, and a proper one compiles if its code has at most 65535 bytes. */
  lemma AcceptedIff(program: Items)
    ensures var r := CheckItems(program, [Local("", 0, false)], 0, NoLoop, 0, Pool([], map[], {}));
            (r.Some? ==> Proper(program)) && (Proper(program) && ItemsLen(program, true, 0) <= 65535 ==> r.Some?)
  {
    hide CheckItems, ProperProgram, ItemsLiterals, ProgramGlobals, ItemsLen;
    var pool := Pool([], map[], {});
    if CheckItems(program, [Local("", 0, false)], 0, NoLoop, 0, pool).Some? { ProgramProper(program, [Local("", 0, false)], 0, pool); }
    if Proper(program) && ItemsLen(program, true, 0) <= 65535 {
      ProgramAccepted(program, 0, pool, ItemsLiterals(program), ProgramGlobals(program));
    }
  }
}
