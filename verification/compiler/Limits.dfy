/** Which programs the compiler accepts, stated on source text alone: name rules, and the limits that
    one-byte operands and two-byte jump distances impose. Every function returns the constant pool
    after compiling the piece, or `None` for a compile error. */
module Limits {
  import opened Options
  import opened Values
  import opened Language
  import opened Bytecode
  import opened Layout

  const MAX_JUMP := 65535

  /** A local variable of the function being compiled; depth -1 while its initialiser is compiled. */
  datatype Local = Local(name: string, depth: int, constant: bool)

  /** The constants, the index each global's name was given, and the globals declared constant. */
  datatype Pool = Pool(constants: seq<Value>, index: map<string, Byte>, fixed: set<string>)

  predicate PoolOk(pool: Pool) {
    && |pool.constants| <= 256
    && forall name :: name in pool.index ==>
         pool.index[name] < |pool.constants| && pool.constants[pool.index[name]] == Str(name)
  }

  function AddConstant(pool: Pool, v: Value): Option<Pool> {
    if |pool.constants| >= 256 then None else Some(pool.(constants := pool.constants + [v]))
  }

  /** A name takes a constant the first time it is used and shares it from then on. */
  function AddName(pool: Pool, name: string): Option<Pool> {
    if name in pool.index then Some(pool)
    else if |pool.constants| >= 256 then None
    else Some(Pool(pool.constants + [Str(name)], pool.index[name := |pool.constants|], pool.fixed))
  }

  /** The names of the variables in scope, without slot zero. */
  function NamesOf(locals: seq<Local>): (r: seq<string>)
    requires |locals| > 0
    ensures |r| == |locals| - 1
    ensures forall i :: 0 <= i < |r| ==> r[i] == locals[i + 1].name
  {
    seq(|locals| - 1, i requires 0 <= i < |locals| - 1 => locals[i + 1].name)
  }

  /** The slot of the innermost local called `name`, or -1. */
  function Slot(locals: seq<Local>, name: string): (i: int)
    ensures -1 <= i < |locals|
    ensures 0 <= i ==> locals[i].name == name
    ensures forall j :: i < j < |locals| ==> locals[j].name != name
  {
    if locals == [] then -1
    else if locals[|locals| - 1].name == name then |locals| - 1
    else Slot(locals[..|locals| - 1], name)
  }

  /** Reading a variable: its own initialiser must not mention it. */
  function CheckRead(name: string, locals: seq<Local>, pool: Pool): Option<Pool> {
    var i := Slot(locals, name);
    if 0 <= i then if locals[i].depth == -1 then None else Some(pool)
    else AddName(pool, name)
  }

  /** Assigning a variable: constants cannot be assigned. */
  function CheckWrite(name: string, locals: seq<Local>, pool: Pool): Option<Pool> {
    var i := Slot(locals, name);
    if 0 <= i then if locals[i].depth == -1 || locals[i].constant then None else Some(pool)
    else
      var r := AddName(pool, name);
      if r.Some? && name in pool.fixed then None else r
  }

  function CheckExpr(e: Expr, locals: seq<Local>, pool: Pool): Option<Pool> {
    match e
    case Literal(v) => if v.Nil? || v.Bool? then Some(pool) else AddConstant(pool, v)
    case Variable(name) => CheckRead(name, locals, pool)
    case Assign(name, rhs) =>
      (match CheckWrite(name, locals, pool)
       case None => None
       case Some(pool1) => CheckExpr(rhs, locals, pool1))
    case Not(e1) => CheckExpr(e1, locals, pool)
    case Negate(e1) => CheckExpr(e1, locals, pool)
    case Binary(_, l, r) =>
      (match CheckExpr(l, locals, pool)
       case None => None
       case Some(pool1) => CheckExpr(r, locals, pool1))
    case And(l, r) =>
      (match CheckExpr(l, locals, pool)
       case None => None
       case Some(pool1) => if 1 + ExprLen(r) > MAX_JUMP then None else CheckExpr(r, locals, pool1))
    case Or(l, r) =>
      (match CheckExpr(l, locals, pool)
       case None => None
       case Some(pool1) => if 1 + ExprLen(r) > MAX_JUMP then None else CheckExpr(r, locals, pool1))
    case Ternary(c, yes, no) =>
      match CheckExpr(c, locals, pool)
      case None => None
      case Some(pool1) =>
        match CheckExpr(yes, locals, pool1)
        case None => None
        case Some(pool2) =>
          if 4 + ExprLen(yes) > MAX_JUMP || 1 + ExprLen(no) > MAX_JUMP then None else CheckExpr(no, locals, pool2)
  }

  function CheckInit(init: Option<Expr>, locals: seq<Local>, pool: Pool): Option<Pool> {
    if init.Some? then CheckExpr(init.value, locals, pool) else Some(pool)
  }

  function CheckExprs(es: Exprs, locals: seq<Local>, pool: Pool): Option<Pool> {
    match es
    case NoExprs => Some(pool)
    case MoreExprs(head, tail) =>
      match CheckExpr(head, locals, pool)
      case None => None
      case Some(pool1) => CheckExprs(tail, locals, pool1)
  }

  /** Is `name` declared already in the innermost scope? */
  predicate Redeclared(locals: seq<Local>, name: string, depth: nat) {
    && locals != []
    && var last := locals[|locals| - 1];
       && (last.depth == -1 || last.depth >= depth)
       && (last.name == name || Redeclared(locals[..|locals| - 1], name, depth))
  }

  function Scope(locals: seq<Local>, item: Item, depth: nat): (r: seq<Local>)
    requires |locals| > 0
    ensures |r| > 0
    ensures NamesOf(r) == Extend(NamesOf(locals), item, depth == 0)
  {
    if item.Declare? && depth > 0 then
      var r := locals + [Local(item.name, depth, item.constant)];
      assert NamesOf(r) == NamesOf(locals) + [item.name];
      r
    else locals
  }

  function ScopeAll(locals: seq<Local>, items: Items, depth: nat): (r: seq<Local>)
    requires |locals| > 0
    ensures |r| > 0
    ensures NamesOf(r) == ExtendAll(NamesOf(locals), items, depth == 0)
    decreases items
  {
    match items
    case NoItems => locals
    case MoreItems(head, tail) => ScopeAll(Scope(locals, head, depth), tail, depth)
  }

  function CheckStmt(s: Stmt, locals: seq<Local>, depth: nat, t: Target, p: nat, pool: Pool): Option<Pool>
    requires |locals| > 0
    decreases s, 1
  {
    var extra := Extra(NamesOf(locals), t);
    match s
    case Evaluate(e) => CheckExpr(e, locals, pool)
    case Block(items) => CheckItems(items, locals, depth + 1, t, p, pool)
    case If(c, yes, no) =>
      (match CheckExpr(c, locals, pool)
       case None => None
       case Some(pool1) =>
         match CheckStmt(yes, locals, depth, t, p + ExprLen(c) + 4, pool1)
         case None => None
         case Some(pool2) =>
           if StmtLen(yes, extra) + 4 > MAX_JUMP then None
           else if no.None? then Some(pool2)
           else if 1 + StmtLen(no.value, extra) > MAX_JUMP then None
           else CheckStmt(no.value, locals, depth, t, p + ExprLen(c) + StmtLen(yes, extra) + 8, pool2))
    case While(test, body) => CheckWhile(test, body, locals, depth, p, pool)
    case For(init, test, step, body) =>
      (match CheckItems(init, locals, depth + 1, t, p, pool)
       case None => None
       case Some(pool1) =>
         CheckFor(test, step, body, ScopeAll(locals, init, depth + 1), depth + 1, p + ItemsLen(init, false, extra), pool1))
    case Switch(subject, cases) =>
      (match CheckExpr(subject, locals, pool)
       case None => None
       case Some(pool1) => CheckCases(cases, 0, locals, depth, t, p + ExprLen(subject), pool1))
    case Break => if t.InLoop? then Some(pool) else None
    case Continue => if t.InLoop? && p + extra + 3 - t.start <= MAX_JUMP then Some(pool) else None
  }

  function CheckWhile(test: Option<Expr>, body: Stmt, locals: seq<Local>, depth: nat, p: nat, pool: Pool): Option<Pool>
    requires |locals| > 0
    decreases body, 2
  {
    var q := p + InitLen(test);
    match CheckInit(test, locals, pool)
    case None => None
    case Some(pool1) =>
      if 4 + StmtLen(body, 0) + 3 + InitLen(test) > MAX_JUMP then None
      else CheckStmt(body, locals, depth, InLoop(p, |locals| - 1, None), q + 4, pool1)
  }

  function CheckFor(test: Option<Expr>, step: Option<Expr>, body: Stmt, locals: seq<Local>, depth: nat, p: nat,
                    pool: Pool): Option<Pool>
    requires |locals| > 0
    decreases body, 2
  {
    match CheckInit(test, locals, pool)
    case None => None
    case Some(pool1) =>
      match CheckInit(step, locals, pool1)
      case None => None
      case Some(pool2) =>
        var q := p + TestLen(test);
        var b := q + StepLen(step);
        var m := b + StmtLen(body, 0);
        var back := if step.Some? then q + 3 else p;
        if step.Some? && b - p > MAX_JUMP then None
        else if test.Some? && m - p - ExprLen(test.value) > MAX_JUMP then None
        else if m + 3 - back > MAX_JUMP then None
        else CheckStmt(body, locals, depth, InLoop(back, |locals| - 1, None), b, pool2)
  }

  function CheckCases(cs: Cases, count: nat, locals: seq<Local>, depth: nat, t: Target, p: nat, pool: Pool): Option<Pool>
    requires |locals| > 0
    decreases cs, 1
  {
    var extra := Extra(NamesOf(locals), t);
    match cs
    case Otherwise(default) => if default.Some? then CheckStmt(default.value, locals, depth, t, p + 1, pool) else Some(pool)
    case MoreCases(first, more, body, rest) =>
      match CheckExpr(first, locals, pool)
      case None => None
      case Some(pool1) =>
        match CheckExprs(more, locals, pool1)
        case None => None
        case Some(pool2) =>
          var k := p + ExprLen(first) + ExprsLen(more) + MultiLen(more);
          match CheckStmt(body, locals, depth, t, k + 3, pool2)
          case None => None
          case Some(pool3) =>
            if StmtLen(body, extra) + 3 > MAX_JUMP || count + 1 > 255 || CasesLen(rest, extra) > MAX_JUMP then None
            else CheckCases(rest, count + 1, locals, depth, t, k + 3 + StmtLen(body, extra) + 3, pool3)
  }

  function CheckItems(items: Items, locals: seq<Local>, depth: nat, t: Target, p: nat, pool: Pool): Option<Pool>
    requires |locals| > 0
    decreases items, 1
  {
    match items
    case NoItems => Some(pool)
    case MoreItems(head, tail) =>
      match CheckItem(head, locals, depth, t, p, pool)
      case None => None
      case Some(pool1) =>
        var q := p + ItemLen(head, depth == 0, Extra(NamesOf(locals), t));
        CheckItems(tail, Scope(locals, head, depth), depth, t, q, pool1)
  }

  /** At depth zero a declaration makes a global; deeper it takes one of 256 slots. */
  function CheckItem(item: Item, locals: seq<Local>, depth: nat, t: Target, p: nat, pool: Pool): Option<Pool>
    requires |locals| > 0
    decreases item, 1
  {
    match item
    case Perform(s) => CheckStmt(s, locals, depth, t, p, pool)
    case Declare(name, init, constant) =>
      if depth > 0 then
        if Redeclared(locals, name, depth) || |locals| >= 256 then None
        else CheckInit(init, locals + [Local(name, -1, false)], pool)
      else
        match AddName(pool, name)
        case None => None
        case Some(pool1) =>
          match CheckInit(init, locals, pool1)
          case None => None
          case Some(pool2) => Some(if constant then pool2.(fixed := pool2.fixed + {name}) else pool2)
  }

  /** How many locals, outermost first, are no deeper than `depth`. */
  function Shallow(locals: seq<Local>, depth: int): (n: nat)
    ensures n <= |locals|
    ensures forall i :: n <= i < |locals| ==> locals[i].depth > depth
    ensures n > 0 ==> locals[n - 1].depth <= depth
  {
    if locals == [] || locals[|locals| - 1].depth <= depth then |locals|
    else Shallow(locals[..|locals| - 1], depth)
  }

  /** Locals in the order they were declared: never shallower than the one before. */
  predicate Nested(locals: seq<Local>, depth: int) {
    && (forall i :: 0 <= i < |locals| ==> 0 <= locals[i].depth <= depth)
    && (forall i :: 1 <= i < |locals| ==> 1 <= locals[i].depth)
    && (forall i, j :: 0 <= i < j < |locals| ==> locals[i].depth <= locals[j].depth)
  }

  lemma ShallowStep(locals: seq<Local>, depth: int)
    ensures if locals == [] || locals[|locals| - 1].depth <= depth then Shallow(locals, depth) == |locals|
            else Shallow(locals, depth) == Shallow(locals[..|locals| - 1], depth)
  {
  }

  lemma ShallowIs(locals: seq<Local>, depth: int, n: nat)
    requires n <= |locals|
    requires forall i :: n <= i < |locals| ==> locals[i].depth > depth
    requires n > 0 ==> locals[n - 1].depth <= depth
    ensures Shallow(locals, depth) == n
  {
  }

  /** Declarations inside a scope do not change how many locals lie outside it. */
  lemma {:induction false} ScopeAllKeeps(locals: seq<Local>, items: Items, depth: nat, outer: int)
    requires |locals| > 0 && Nested(locals, depth) && outer < depth
    ensures var r := ScopeAll(locals, items, depth);
            && Nested(r, depth) && locals <= r && Shallow(r, outer) == Shallow(locals, outer)
    decreases items
  {
    hide Nested, Shallow, Scope;
    if items.MoreItems? {
      ScopeKeeps(locals, items.head, depth, outer);
      ScopeAllKeeps(Scope(locals, items.head, depth), items.tail, depth, outer);
    }
  }

  lemma ScopeKeeps(locals: seq<Local>, item: Item, depth: nat, outer: int)
    requires |locals| > 0 && Nested(locals, depth) && outer < depth
    ensures var r := Scope(locals, item, depth);
            && Nested(r, depth) && locals <= r && Shallow(r, outer) == Shallow(locals, outer)
  {
    hide NamesOf, Extend;
    ShallowIs(Scope(locals, item, depth), outer, Shallow(locals, outer));
  }

  /** Code that compiles with a variable in its own initialiser's position never refers to it. */
  lemma {:induction false} InitialiserBlind(ch: Chunk, e: Expr, locals: seq<Local>, name: string, p: nat, pool: Pool)
    requires |locals| > 0
    requires CheckExpr(e, locals + [Local(name, -1, false)], pool).Some?
    requires ExprAt(ch, e, NamesOf(locals) + [name], p)
    ensures ExprAt(ch, e, NamesOf(locals), p)
    decreases e, 1
  {
    hide At, Names, ExprLen, OperatorAt;
    var more := locals + [Local(name, -1, false)];
    match e
    case Literal(_) =>
    case Variable(x) => BlindName(locals, name, x);
    case Assign(x, rhs) =>
      BlindName(locals, name, x);
      InitialiserBlind(ch, rhs, locals, name, p, CheckWrite(x, more, pool).value);
    case Not(e1) => InitialiserBlind(ch, e1, locals, name, p, pool);
    case Negate(e1) => InitialiserBlind(ch, e1, locals, name, p, pool);
    case Binary(_, l, r) => BlindPair(ch, e, l, r, locals, name, p, 0, pool);
    case And(l, r) => BlindPair(ch, e, l, r, locals, name, p, 4, pool);
    case Or(l, r) => BlindPair(ch, e, l, r, locals, name, p, 7, pool);
    case Ternary(c, yes, no) => BlindTernary(ch, c, yes, no, locals, name, p, pool);
  }

  lemma {:induction false} BlindPair(ch: Chunk, e: Expr, l: Expr, r: Expr, locals: seq<Local>, name: string, p: nat,
                                     gap: nat, pool: Pool)
    requires |locals| > 0
    requires (e == And(l, r) && gap == 4) || (e == Or(l, r) && gap == 7) || (e.Binary? && e == Binary(e.op, l, r) && gap == 0)
    requires CheckExpr(e, locals + [Local(name, -1, false)], pool).Some?
    requires ExprAt(ch, e, NamesOf(locals) + [name], p)
    ensures ExprAt(ch, e, NamesOf(locals), p)
    decreases e, 0
  {
    hide At, Names, Resolve, ExprLen, OperatorAt, NamesOf;
    var more := locals + [Local(name, -1, false)];
    InitialiserBlind(ch, l, locals, name, p, pool);
    InitialiserBlind(ch, r, locals, name, p + ExprLen(l) + gap, CheckExpr(l, more, pool).value);
  }

  lemma {:induction false} BlindTernary(ch: Chunk, c: Expr, yes: Expr, no: Expr, locals: seq<Local>, name: string, p: nat,
                                        pool: Pool)
    requires |locals| > 0
    requires CheckExpr(Ternary(c, yes, no), locals + [Local(name, -1, false)], pool).Some?
    requires ExprAt(ch, Ternary(c, yes, no), NamesOf(locals) + [name], p)
    ensures ExprAt(ch, Ternary(c, yes, no), NamesOf(locals), p)
    decreases Ternary(c, yes, no), 0
  {
    hide At, Names, Resolve, ExprLen, NamesOf;
    var more := locals + [Local(name, -1, false)];
    var pool1 := CheckExpr(c, more, pool).value;
    InitialiserBlind(ch, c, locals, name, p, pool);
    InitialiserBlind(ch, yes, locals, name, p + ExprLen(c) + 4, pool1);
    InitialiserBlind(ch, no, locals, name, p + ExprLen(c) + 4 + ExprLen(yes) + 4, CheckExpr(yes, more, pool1).value);
  }

  lemma BlindName(locals: seq<Local>, name: string, x: string)
    requires |locals| > 0
    ensures var i := Slot(locals + [Local(name, -1, false)], x);
            if x == name then i == |locals|
            else i == Slot(locals, x) && Resolve(NamesOf(locals) + [name], x) == Resolve(NamesOf(locals), x)
  {
  }
}
