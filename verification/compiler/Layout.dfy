/** Which code counts as a translation of which source: the byte at every offset, with all jump
    distances given by the lengths of the pieces they skip. */
module Layout {
  import opened Options
  import opened Values
  import opened Language
  import opened Bytecode

  /** The innermost of `names` equal to `name`, or -1. */
  function Resolve(names: seq<string>, name: string): (i: int)
    ensures -1 <= i < |names|
    ensures 0 <= i ==> names[i] == name
    ensures forall j :: i < j < |names| ==> names[j] != name
  {
    if names == [] then -1
    else if names[|names| - 1] == name then |names| - 1
    else Resolve(names[..|names| - 1], name)
  }

  /** Where `continue` goes, how many variables are in scope there, and where `break` goes.
      While a loop is still being compiled its exit is unknown and breaks are placeholders. */
  datatype Target = NoLoop | InLoop(start: nat, base: nat, exit: Option<nat>)

  // ---- lengths ----

  function ExprLen(e: Expr): nat {
    match e
    case Literal(v) => if v.Nil? || v.Bool? then 1 else 2
    case Variable(_) => 2
    case Assign(_, rhs) => ExprLen(rhs) + 2
    case Not(e1) => ExprLen(e1) + 1
    case Negate(e1) => ExprLen(e1) + 1
    case Binary(op, l, r) => ExprLen(l) + ExprLen(r) + OpLen(op)
    case And(l, r) => ExprLen(l) + 4 + ExprLen(r)
    case Or(l, r) => ExprLen(l) + 7 + ExprLen(r)
    case Ternary(c, yes, no) => ExprLen(c) + 4 + ExprLen(yes) + 4 + ExprLen(no)
  }

  function OpLen(op: BinaryOp): nat {
    if op.Equal? || op.Op? then 1 else 2
  }

  function ExprsLen(es: Exprs): nat {
    match es
    case NoExprs => 0
    case MoreExprs(head, tail) => ExprLen(head) + ExprsLen(tail)
  }

  function InitLen(init: Option<Expr>): nat {
    if init.Some? then ExprLen(init.value) else 1
  }

  /** A test with the jump out of the loop and the pop behind it. */
  function TestLen(test: Option<Expr>): nat {
    if test.Some? then ExprLen(test.value) + 4 else 0
  }

  /** The jump over the step, the step, its pop, and the jump back to the test. */
  function StepLen(step: Option<Expr>): nat {
    if step.Some? then ExprLen(step.value) + 7 else 0
  }

  /** `extra` counts the variables in scope that a `break` or `continue` here must discard. */
  function StmtLen(s: Stmt, extra: nat): nat {
    match s
    case Evaluate(e) => ExprLen(e) + 1
    case Block(items) => ItemsLen(items, false, extra) + Declared(items)
    case If(c, yes, no) => ExprLen(c) + 4 + StmtLen(yes, extra) + 4 + (if no.Some? then StmtLen(no.value, extra) else 0)
    case While(test, body) => InitLen(test) + 4 + StmtLen(body, 0) + 4
    case For(init, test, step, body) =>
      ItemsLen(init, false, extra) + TestLen(test) + StepLen(step) + StmtLen(body, 0) + 3
      + (if test.Some? then 1 else 0) + Declared(init)
    case Switch(subject, cases) => ExprLen(subject) + CasesLen(cases, extra)
    case Break => extra + 3
    case Continue => extra + 3
  }

  function CasesLen(cs: Cases, extra: nat): nat {
    match cs
    case Otherwise(default) => 1 + (if default.Some? then StmtLen(default.value, extra) else 0)
    case MoreCases(first, more, body, rest) =>
      ExprLen(first) + ExprsLen(more) + MultiLen(more) + 3 + StmtLen(body, extra) + 3 + CasesLen(rest, extra)
  }

  function MultiLen(more: Exprs): nat {
    if more.NoExprs? then 0 else 2
  }

  function ItemsLen(items: Items, global: bool, extra: nat): nat {
    match items
    case NoItems => 0
    case MoreItems(head, tail) => ItemLen(head, global, extra) + ItemsLen(tail, global, extra + Adds(head, global))
  }

  function ItemLen(item: Item, global: bool, extra: nat): nat {
    match item
    case Declare(_, init, _) => InitLen(init) + (if global then 2 else 0)
    case Perform(s) => StmtLen(s, extra)
  }

  /** How many local variables an item leaves in scope. */
  function Adds(item: Item, global: bool): nat {
    if item.Declare? && !global then 1 else 0
  }

  function Declared(items: Items): nat {
    match items
    case NoItems => 0
    case MoreItems(head, tail) => Adds(head, false) + Declared(tail)
  }

  function Extend(names: seq<string>, item: Item, global: bool): seq<string> {
    if item.Declare? && !global then names + [item.name] else names
  }

  function ExtendAll(names: seq<string>, items: Items, global: bool): (r: seq<string>)
    ensures names <= r
    ensures global ==> r == names
    ensures !global ==> |r| == |names| + Declared(items)
    decreases items
  {
    match items
    case NoItems => names
    case MoreItems(head, tail) => ExtendAll(Extend(names, head, global), tail, global)
  }

  // ---- code ----

  /** At `p`: opcode `op` with a one-byte index of the constant `v`. */
  predicate Names(ch: Chunk, p: nat, op: Byte, v: Value) {
    && p + 2 <= |ch.code|
    && ch.code[p] == op
    && ch.code[p + 1] < |ch.constants|
    && ch.constants[ch.code[p + 1]] == v
  }

  predicate ExprAt(ch: Chunk, e: Expr, names: seq<string>, p: nat) {
    match e
    case Literal(v) => LiteralAt(ch, v, p)
    case Variable(name) =>
      var i := Resolve(names, name);
      if 0 <= i then i + 1 < 256 && At(ch.code, p, GetLocal(i + 1)) else Names(ch, p, OP_GET_MODULE, Str(name))
    case Assign(name, rhs) =>
      var q := p + ExprLen(rhs);
      var i := Resolve(names, name);
      && ExprAt(ch, rhs, names, p)
      && if 0 <= i then i + 1 < 256 && At(ch.code, q, SetLocal(i + 1)) else Names(ch, q, OP_SET_MODULE, Str(name))
    case Not(e1) => ExprAt(ch, e1, names, p) && At(ch.code, p + ExprLen(e1), Invert)
    case Negate(e1) => ExprAt(ch, e1, names, p) && At(ch.code, p + ExprLen(e1), Minus)
    case Binary(op, l, r) =>
      && ExprAt(ch, l, names, p)
      && ExprAt(ch, r, names, p + ExprLen(l))
      && OperatorAt(ch.code, op, p + ExprLen(l) + ExprLen(r))
    case And(l, r) =>
      var q := p + ExprLen(l);
      && ExprAt(ch, l, names, p)
      && At(ch.code, q, JumpIfFalse(1 + ExprLen(r)))
      && At(ch.code, q + 3, Pop)
      && ExprAt(ch, r, names, q + 4)
    case Or(l, r) =>
      var q := p + ExprLen(l);
      && ExprAt(ch, l, names, p)
      && At(ch.code, q, JumpIfFalse(3))
      && At(ch.code, q + 3, Jump(1 + ExprLen(r)))
      && At(ch.code, q + 6, Pop)
      && ExprAt(ch, r, names, q + 7)
    case Ternary(c, yes, no) =>
      var q := p + ExprLen(c);
      var m := q + 4 + ExprLen(yes);
      && ExprAt(ch, c, names, p)
      && At(ch.code, q, JumpIfFalse(4 + ExprLen(yes)))
      && At(ch.code, q + 3, Pop)
      && ExprAt(ch, yes, names, q + 4)
      && At(ch.code, m, Jump(1 + ExprLen(no)))
      && At(ch.code, m + 3, Pop)
      && ExprAt(ch, no, names, m + 4)
  }

  predicate LiteralAt(ch: Chunk, v: Value, p: nat) {
    match v
    case Nil => At(ch.code, p, PushNil)
    case Bool(b) => At(ch.code, p, if b then PushTrue else PushFalse)
    case _ => Names(ch, p, OP_CONSTANT, v)
  }

  predicate OperatorAt(code: seq<Byte>, op: BinaryOp, p: nat) {
    match op
    case Equal => At(code, p, TestEqual)
    case NotEqual => At(code, p, TestEqual) && At(code, p + 1, Invert)
    case GreaterEqual => At(code, p, Arithmetic(Less)) && At(code, p + 1, Invert)
    case LessEqual => At(code, p, Arithmetic(Greater)) && At(code, p + 1, Invert)
    case Op(o) => At(code, p, Arithmetic(o))
  }

  predicate ExprsAt(ch: Chunk, es: Exprs, names: seq<string>, p: nat) {
    match es
    case NoExprs => true
    case MoreExprs(head, tail) => ExprAt(ch, head, names, p) && ExprsAt(ch, tail, names, p + ExprLen(head))
  }

  /** An initialiser, a loop test or nothing, in which case `default` is pushed instead. */
  predicate InitAt(ch: Chunk, init: Option<Expr>, default: Instr, names: seq<string>, p: nat) {
    if init.Some? then ExprAt(ch, init.value, names, p) else At(ch.code, p, default)
  }

  predicate PopsAt(code: seq<Byte>, p: nat, n: nat) {
    p + n <= |code| && forall i :: p <= i < p + n ==> code[i] == OP_POP
  }

  function Base(t: Target): nat {
    if t.InLoop? then t.base else 0
  }

  /** How many of the variables in scope a `break` or `continue` has to discard. */
  function Extra(names: seq<string>, t: Target): nat {
    if Base(t) <= |names| then |names| - Base(t) else 0
  }

  predicate StmtAt(ch: Chunk, s: Stmt, names: seq<string>, t: Target, p: nat)
    decreases s, 0
  {
    match s
    case Evaluate(e) => ExprAt(ch, e, names, p) && At(ch.code, p + ExprLen(e), Pop)
    case Block(items) =>
      && ItemsAt(ch, items, false, names, t, p)
      && PopsAt(ch.code, p + ItemsLen(items, false, Extra(names, t)), Declared(items))
    case If(c, yes, no) =>
      var q := p + ExprLen(c);
      var m := q + 4 + StmtLen(yes, Extra(names, t));
      && ExprAt(ch, c, names, p)
      && At(ch.code, q, JumpIfFalse(m + 3 - (q + 3)))
      && At(ch.code, q + 3, Pop)
      && StmtAt(ch, yes, names, t, q + 4)
      && At(ch.code, m, Jump(1 + if no.Some? then StmtLen(no.value, Extra(names, t)) else 0))
      && At(ch.code, m + 3, Pop)
      && (no.Some? ==> StmtAt(ch, no.value, names, t, m + 4))
    case While(test, body) => WhileAt(ch, test, body, names, p)
    case For(init, test, step, body) =>
      var q := p + ItemsLen(init, false, Extra(names, t));
      var all := ExtendAll(names, init, false);
      && ItemsAt(ch, init, false, names, t, p)
      && ForAt(ch, test, step, body, all, q)
      && PopsAt(ch.code, q + ForLen(test, step, body), Declared(init))
    case Switch(subject, cases) =>
      var q := p + ExprLen(subject);
      && ExprAt(ch, subject, names, p)
      && CasesAt(ch, cases, names, t, q, q + CasesLen(cases, Extra(names, t)))
    case Break =>
      var q := p + Extra(names, t);
      && t.InLoop?
      && PopsAt(ch.code, p, Extra(names, t))
      && (match t.exit
          case None => q + 3 <= |ch.code| && ch.code[q] == OP_BREAK
          case Some(exit) => q + 3 <= exit && At(ch.code, q, Jump(exit - (q + 3))))
    case Continue =>
      var q := p + Extra(names, t);
      && t.InLoop?
      && PopsAt(ch.code, p, Extra(names, t))
      && t.start <= q + 3
      && At(ch.code, q, Loop(q + 3 - t.start))
  }

  predicate WhileAt(ch: Chunk, test: Option<Expr>, body: Stmt, names: seq<string>, p: nat)
    decreases body, 1
  {
    var q := p + InitLen(test);
    var m := q + 4 + StmtLen(body, 0);
    && InitAt(ch, test, PushTrue, names, p)
    && At(ch.code, q, JumpIfFalse(m + 3 - (q + 3)))
    && At(ch.code, q + 3, Pop)
    && StmtAt(ch, body, names, InLoop(p, |names|, Some(m + 4)), q + 4)
    && At(ch.code, m, Loop(m + 3 - p))
    && At(ch.code, m + 3, Pop)
  }

  /** A `for` statement without its initialiser and the discarding of its variables. */
  function ForLen(test: Option<Expr>, step: Option<Expr>, body: Stmt): nat {
    TestLen(test) + StepLen(step) + StmtLen(body, 0) + 3 + if test.Some? then 1 else 0
  }

  predicate ForAt(ch: Chunk, test: Option<Expr>, step: Option<Expr>, body: Stmt, names: seq<string>, p: nat)
    decreases body, 1
  {
    var q := p + TestLen(test);
    var b := q + StepLen(step);
    var m := b + StmtLen(body, 0);
    var back := if step.Some? then q + 3 else p;
    var exit := p + ForLen(test, step, body);
    && (test.Some? ==>
          var j := p + ExprLen(test.value);
          && ExprAt(ch, test.value, names, p)
          && At(ch.code, j, JumpIfFalse(m + 3 - (j + 3)))
          && At(ch.code, j + 3, Pop)
          && At(ch.code, m + 3, Pop))
    && (step.Some? ==>
          && At(ch.code, q, Jump(b - (q + 3)))
          && ExprAt(ch, step.value, names, q + 3)
          && At(ch.code, b - 4, Pop)
          && At(ch.code, b - 3, Loop(b - p)))
    && StmtAt(ch, body, names, InLoop(back, |names|, Some(exit)), b)
    && At(ch.code, m, Loop(m + 3 - back))
  }

  /** The case tests and bodies from `p` on; every body ends by jumping to `end`. */
  predicate CasesAt(ch: Chunk, cs: Cases, names: seq<string>, t: Target, p: nat, end: nat)
    decreases cs, 0
  {
    match cs
    case Otherwise(default) => At(ch.code, p, Pop) && (default.Some? ==> StmtAt(ch, default.value, names, t, p + 1))
    case MoreCases(first, more, body, rest) =>
      var q := p + ExprLen(first) + ExprsLen(more);
      var j := q + MultiLen(more);
      var m := j + 3 + StmtLen(body, Extra(names, t));
      && ExprAt(ch, first, names, p)
      && ExprsAt(ch, more, names, p + ExprLen(first))
      && (more.MoreExprs? ==> At(ch.code, q, MultiCase(Count(more) % 256)))
      && At(ch.code, j, CompareJump(m + 3 - (j + 3)))
      && StmtAt(ch, body, names, t, j + 3)
      && m + 3 <= end
      && At(ch.code, m, Jump(end - (m + 3)))
      && CasesAt(ch, rest, names, t, m + 3, end)
  }

  predicate ItemsAt(ch: Chunk, items: Items, global: bool, names: seq<string>, t: Target, p: nat)
    decreases items, 0
  {
    match items
    case NoItems => true
    case MoreItems(head, tail) =>
      && ItemAt(ch, head, global, names, t, p)
      && ItemsAt(ch, tail, global, Extend(names, head, global), t, p + ItemLen(head, global, Extra(names, t)))
  }

  predicate ItemAt(ch: Chunk, item: Item, global: bool, names: seq<string>, t: Target, p: nat)
    decreases item, 0
  {
    match item
    case Perform(s) => StmtAt(ch, s, names, t, p)
    case Declare(name, init, _) =>
      && InitAt(ch, init, PushNil, names, p)
      && (global ==> Names(ch, p + InitLen(init), OP_DEFINE_MODULE, Str(name)))
  }

  /** A program's code: its items, then the implicit `return nil`. */
  predicate ProgramAt(ch: Chunk, program: Items) {
    var q := ItemsLen(program, true, 0);
    && ItemsAt(ch, program, true, [], NoLoop, 0)
    && At(ch.code, q, PushNil)
    && At(ch.code, q + 1, Return)
  }

  // ---- one level of an expression ----

  lemma UnaryIs(ch: Chunk, e: Expr, names: seq<string>, p: nat)
    requires e.Not? || e.Negate?
    ensures ExprLen(e) == ExprLen(e.e) + 1
    ensures ExprAt(ch, e, names, p) <==>
            ExprAt(ch, e.e, names, p) && At(ch.code, p + ExprLen(e.e), if e.Not? then Invert else Minus)
  {
    hide At, Names, Resolve, LiteralAt, OperatorAt;
  }

  lemma AssignIs(ch: Chunk, name: Name, rhs: Expr, names: seq<string>, p: nat)
    ensures ExprLen(Assign(name, rhs)) == ExprLen(rhs) + 2
    ensures ExprAt(ch, Assign(name, rhs), names, p) <==>
            var q := p + ExprLen(rhs);
            var i := Resolve(names, name);
            && ExprAt(ch, rhs, names, p)
            && if 0 <= i then i + 1 < 256 && At(ch.code, q, SetLocal(i + 1)) else Names(ch, q, OP_SET_MODULE, Str(name))
  {
    hide At, Names, Resolve, LiteralAt, OperatorAt;
  }

  lemma BinaryIs(ch: Chunk, op: BinaryOp, l: Expr, r: Expr, names: seq<string>, p: nat)
    ensures ExprLen(Binary(op, l, r)) == ExprLen(l) + ExprLen(r) + OpLen(op)
    ensures ExprAt(ch, Binary(op, l, r), names, p) <==>
            && ExprAt(ch, l, names, p)
            && ExprAt(ch, r, names, p + ExprLen(l))
            && OperatorAt(ch.code, op, p + ExprLen(l) + ExprLen(r))
  {
    hide At, Names, Resolve, LiteralAt, OperatorAt, OpLen;
  }

  lemma AndIs(ch: Chunk, l: Expr, r: Expr, names: seq<string>, p: nat)
    ensures ExprLen(And(l, r)) == ExprLen(l) + 4 + ExprLen(r)
    ensures ExprAt(ch, And(l, r), names, p) <==>
            var q := p + ExprLen(l);
            && ExprAt(ch, l, names, p)
            && At(ch.code, q, JumpIfFalse(1 + ExprLen(r)))
            && At(ch.code, q + 3, Pop)
            && ExprAt(ch, r, names, q + 4)
  {
    hide At, Names, Resolve, LiteralAt, OperatorAt;
  }

  lemma OrIs(ch: Chunk, l: Expr, r: Expr, names: seq<string>, p: nat)
    ensures ExprLen(Or(l, r)) == ExprLen(l) + 7 + ExprLen(r)
    ensures ExprAt(ch, Or(l, r), names, p) <==>
            var q := p + ExprLen(l);
            && ExprAt(ch, l, names, p)
            && At(ch.code, q, JumpIfFalse(3))
            && At(ch.code, q + 3, Jump(1 + ExprLen(r)))
            && At(ch.code, q + 6, Pop)
            && ExprAt(ch, r, names, q + 7)
  {
    hide At, Names, Resolve, LiteralAt, OperatorAt;
  }

  lemma TernaryIs(ch: Chunk, x: Expr, yes: Expr, no: Expr, names: seq<string>, p: nat)
    ensures ExprLen(Ternary(x, yes, no)) == ExprLen(x) + 4 + ExprLen(yes) + 4 + ExprLen(no)
    ensures ExprAt(ch, Ternary(x, yes, no), names, p) <==>
            var q := p + ExprLen(x);
            var m := q + 4 + ExprLen(yes);
            && ExprAt(ch, x, names, p)
            && At(ch.code, q, JumpIfFalse(4 + ExprLen(yes)))
            && At(ch.code, q + 3, Pop)
            && ExprAt(ch, yes, names, q + 4)
            && At(ch.code, m, Jump(1 + ExprLen(no)))
            && At(ch.code, m + 3, Pop)
            && ExprAt(ch, no, names, m + 4)
  {
    hide At, Names, Resolve, LiteralAt, OperatorAt;
  }
}
