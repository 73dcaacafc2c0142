/** Stack heights alone: whatever happens to the values, the code of every accepted program keeps the stack at least as
    high as the code expects, and too high only by a multiple of 256. Read backwards, from what follows a piece of code. */
module StackHeight {
  import opened Options
  import opened Values
  import opened Language
  import opened Bytecode
  import opened Machine
  import opened Layout
  import opened Preservation

  /** The machine that runs, and how much must at least be left on its stack when it halts. */
  datatype Setting = Setting(alu: Alu, ch: Chunk, least: nat)

  /** For `limit` steps the machine is never stuck, and if it halts, at least `least` values are left over, a multiple
      of 256. */
  ghost predicate Good(s: Setting, c: Config, limit: nat)
    decreases limit
  {
    match c
    case Running(_, _, _) => limit == 0 || Good(s, Step(s.alu, s.ch, c), limit - 1)
    case Halted(stack, _) => s.least <= |stack| && |stack| % 256 == 0
    case Faulted(_) => true
    case Stuck => false
  }

  /** At offset `q` with `h` values, or with 256, 512, ... more. */
  predicate Raised(c: Config, q: nat, h: nat) {
    c.Running? && c.ip == q && h <= |c.stack| && (|c.stack| - h) % 256 == 0
  }

  /** From offset `q` at height `h` all is well for `limit` steps. */
  ghost predicate Continues(s: Setting, q: nat, h: nat, limit: nat) {
    forall c: Config :: Raised(c, q, h) ==> Good(s, c, limit)
  }

  lemma {:induction false} GoodLess(s: Setting, c: Config, limit: nat, less: nat)
    requires Good(s, c, limit) && less <= limit
    ensures Good(s, c, less)
    decreases limit
  {
    hide Step;
    if c.Running? && less > 0 { GoodLess(s, Step(s.alu, s.ch, c), limit - 1, less - 1); }
  }

  lemma ContinuesLess(s: Setting, q: nat, h: nat, limit: nat, less: nat)
    requires Continues(s, q, h, limit) && less <= limit
    ensures Continues(s, q, h, less)
  {
    hide Good;
    forall c: Config | Raised(c, q, h) ensures Good(s, c, less) { GoodLess(s, c, limit, less); }
  }

  lemma ContinuesNow(s: Setting, q: nat, h: nat)
    ensures Continues(s, q, h, 0)
  {
    hide Step;
  }

  /** What holds for the run after some steps holds for the whole run. */
  lemma {:induction false} GoodBefore(s: Setting, c: Config, n: nat, limit: nat)
    requires Good(s, StepN(s.alu, s.ch, c, n), limit)
    ensures Good(s, c, limit)
    decreases n
  {
    hide Step;
    if n > 0 && c.Running? {
      GoodBefore(s, Step(s.alu, s.ch, c), n - 1, limit);
      if limit > 0 { GoodLess(s, Step(s.alu, s.ch, c), limit, limit - 1); }
    } else if n > 0 {
      StoppedStays(s.alu, s.ch, c, n);
    }
  }

  /** Conversely, a good run is good after some steps. */
  lemma {:induction false} GoodAfter(s: Setting, c: Config, n: nat)
    requires Good(s, c, n)
    ensures Good(s, StepN(s.alu, s.ch, c, n), 0)
    decreases n
  {
    hide Step;
    if c.Running? {
      if n > 0 { GoodAfter(s, Step(s.alu, s.ch, c), n - 1); }
    } else {
      StoppedStays(s.alu, s.ch, c, n);
    }
  }

  // ---- one instruction, read backwards ----

  lemma Before(s: Setting, c: Config, i: Instr, limit: nat)
    requires c.Running? && At(s.ch.code, c.ip, i)
    requires Good(s, Execute(s.alu, s.ch.constants, i, c.ip, c.stack, c.globals), limit)
    ensures Good(s, c, limit)
  {
    hide Execute, Fetch, At;
    FetchAt(s.ch.code, c.ip, i);
    GoodLess(s, Execute(s.alu, s.ch.constants, i, c.ip, c.stack, c.globals), limit, if limit == 0 then 0 else limit - 1);
  }

  /** Instructions that go on to the next one. */
  predicate Straight(i: Instr) {
    && !i.Jump? && !i.JumpIfFalse? && !i.CompareJump? && !i.Loop? && !i.MultiCase? && !i.BreakMark? && !i.Return?
  }

  /** The change of height. */
  function Grows(i: Instr): int {
    match i
    case Constant(_) | PushNil | PushTrue | PushFalse | GetLocal(_) | GetModule(_) => 1
    case Pop | DefineModule(_) | TestEqual | Arithmetic(_) => -1
    case _ => 0
  }

  /** The operand is there and the stack is high enough. */
  predicate Allowed(constants: seq<Value>, i: Instr, h: nat) {
    match i
    case Constant(k) => k < |constants|
    case GetLocal(k) => k < h
    case SetLocal(k) => k < h
    case GetModule(k) => k < |constants| && constants[k].Str?
    case DefineModule(k) => k < |constants| && constants[k].Str? && h >= 1
    case SetModule(k) => k < |constants| && constants[k].Str? && h >= 1
    case Pop | Invert | Minus => h >= 1
    case TestEqual | Arithmetic(_) => h >= 2
    case _ => true
  }

  lemma Straightly(s: Setting, i: Instr, q: nat, h: nat, limit: nat)
    requires At(s.ch.code, q, i) && Straight(i) && Allowed(s.ch.constants, i, h)
    requires h + Grows(i) >= 0 && Continues(s, q + Size(i), h + Grows(i), limit)
    ensures Continues(s, q, h, limit)
  {
    hide Good, At;
    forall c: Config | Raised(c, q, h) ensures Good(s, c, limit) {
      var d := Execute(s.alu, s.ch.constants, i, c.ip, c.stack, c.globals);
      assert d.Faulted? || Raised(d, q + Size(i), h + Grows(i));
      FaultIsGood(s, d, limit);
      Before(s, c, i, limit);
    }
  }

  lemma FaultIsGood(s: Setting, c: Config, limit: nat)
    ensures c.Faulted? ==> Good(s, c, limit)
  {
  }

  lemma Jumps(s: Setting, offset: nat, q: nat, h: nat, limit: nat)
    requires At(s.ch.code, q, Jump(offset)) && Continues(s, q + 3 + offset, h, limit)
    ensures Continues(s, q, h, limit)
  {
    hide Good, At;
    forall c: Config | Raised(c, q, h) ensures Good(s, c, limit) {
      assert Raised(Execute(s.alu, s.ch.constants, Jump(offset), c.ip, c.stack, c.globals), q + 3 + offset, h);
      Before(s, c, Jump(offset), limit);
    }
  }

  lemma Branches(s: Setting, offset: nat, q: nat, h: nat, limit: nat)
    requires At(s.ch.code, q, JumpIfFalse(offset)) && h >= 1
    requires Continues(s, q + 3, h, limit) && Continues(s, q + 3 + offset, h, limit)
    ensures Continues(s, q, h, limit)
  {
    hide Good, At;
    forall c: Config | Raised(c, q, h) ensures Good(s, c, limit) {
      var d := Execute(s.alu, s.ch.constants, JumpIfFalse(offset), c.ip, c.stack, c.globals);
      assert Raised(d, q + 3, h) || Raised(d, q + 3 + offset, h);
      Before(s, c, JumpIfFalse(offset), limit);
    }
  }

  lemma Compares(s: Setting, offset: nat, q: nat, h: nat, limit: nat)
    requires At(s.ch.code, q, CompareJump(offset))
    requires Continues(s, q + 3, h, limit) && Continues(s, q + 3 + offset, h + 1, limit)
    ensures Continues(s, q, h + 2, limit)
  {
    hide Good, At;
    forall c: Config | Raised(c, q, h + 2) ensures Good(s, c, limit) {
      var d := Execute(s.alu, s.ch.constants, CompareJump(offset), c.ip, c.stack, c.globals);
      assert Raised(d, q + 3, h) || Raised(d, q + 3 + offset, h + 1);
      Before(s, c, CompareJump(offset), limit);
    }
  }

  /** The one rule that makes the stack too high: the count in the code is the number of further values modulo 256. */
  lemma Picks(s: Setting, more: nat, q: nat, h: nat, limit: nat)
    requires At(s.ch.code, q, MultiCase(more % 256)) && h >= 2 && Continues(s, q + 2, h, limit)
    ensures Continues(s, q, h + more, limit)
  {
    hide Good, At, Pick;
    forall c: Config | Raised(c, q, h + more) ensures Good(s, c, limit) {
      assert Raised(Execute(s.alu, s.ch.constants, MultiCase(more % 256), c.ip, c.stack, c.globals), q + 2, h);
      Before(s, c, MultiCase(more % 256), limit);
    }
  }

  lemma Repeats(s: Setting, offset: nat, q: nat, h: nat, limit: nat)
    requires At(s.ch.code, q, Loop(offset)) && offset <= q + 3
    requires limit > 0 ==> Continues(s, q + 3 - offset, h, limit - 1)
    ensures Continues(s, q, h, limit)
  {
    hide Good, At;
    if limit == 0 {
      ContinuesNow(s, q, h);
    } else {
      forall c: Config | Raised(c, q, h) ensures Good(s, c, limit) {
        assert Raised(Execute(s.alu, s.ch.constants, Loop(offset), c.ip, c.stack, c.globals), q + 3 - offset, h);
        BeforeLoop(s, c, offset, limit);
      }
    }
  }

  lemma BeforeLoop(s: Setting, c: Config, offset: nat, limit: nat)
    requires c.Running? && At(s.ch.code, c.ip, Loop(offset)) && limit > 0
    requires Good(s, Execute(s.alu, s.ch.constants, Loop(offset), c.ip, c.stack, c.globals), limit - 1)
    ensures Good(s, c, limit)
  {
    hide Execute, Fetch, At;
    FetchAt(s.ch.code, c.ip, Loop(offset));
  }

  lemma Returns(s: Setting, q: nat, extra: nat, limit: nat)
    requires At(s.ch.code, q, Return) && s.least <= extra && extra % 256 == 0
    ensures Continues(s, q, extra + 2, limit)
  {
    hide At;
    forall c: Config | Raised(c, q, extra + 2) ensures Good(s, c, limit) {
      Before(s, c, Return, limit);
    }
  }

  lemma {:induction false} Pops(s: Setting, q: nat, k: nat, h: nat, limit: nat)
    requires PopsAt(s.ch.code, q, k) && Continues(s, q + k, h, limit)
    ensures Continues(s, q, h + k, limit)
    decreases k
  {
    hide Continues;
    if k > 0 {
      Pops(s, q + 1, k - 1, h, limit);
      Straightly(s, Pop, q, h + k, limit);
    }
  }

  lemma PopOne(s: Setting, q: nat, h: nat, limit: nat)
    requires At(s.ch.code, q, Pop) && Continues(s, q + 1, h, limit)
    ensures Continues(s, q, h + 1, limit)
  {
    hide Continues, At;
    Straightly(s, Pop, q, h + 1, limit);
  }

  // ---- expressions ----

  lemma {:induction false} ExprStands(s: Setting, e: Expr, names: seq<string>, p: nat, h: nat, limit: nat)
    requires ExprAt(s.ch, e, names, p) && |names| < h && Continues(s, p + ExprLen(e), h + 1, limit)
    ensures Continues(s, p, h, limit)
    decreases e, 2
  {
    hide Continues, ExprAt, ExprLen;
    match e
    case Literal(_) => LeafStands(s, e, names, p, h, limit);
    case Variable(_) => LeafStands(s, e, names, p, h, limit);
    case Assign(_, _) => AssignStands(s, e, names, p, h, limit);
    case Not(_) => UnaryStands(s, e, names, p, h, limit);
    case Negate(_) => UnaryStands(s, e, names, p, h, limit);
    case Binary(_, _, _) => BinaryStands(s, e, names, p, h, limit);
    case And(_, _) => EitherStands(s, e, names, p, h, limit);
    case Or(_, _) => EitherStands(s, e, names, p, h, limit);
    case Ternary(_, _, _) => TernaryStands(s, e, names, p, h, limit);
  }

  lemma {:induction false} UnaryStands(s: Setting, e: Expr, names: seq<string>, p: nat, h: nat, limit: nat)
    requires e.Not? || e.Negate?
    requires ExprAt(s.ch, e, names, p) && |names| < h && Continues(s, p + ExprLen(e), h + 1, limit)
    ensures Continues(s, p, h, limit)
    decreases e, 1
  {
    hide Continues, At, ExprAt, ExprLen, Resolve, OpLen;
    UnaryIs(s.ch, e, names, p);
    Straightly(s, if e.Not? then Invert else Minus, p + ExprLen(e.e), h + 1, limit);
    ExprStands(s, e.e, names, p, h, limit);
  }

  lemma {:induction false} BinaryStands(s: Setting, e: Expr, names: seq<string>, p: nat, h: nat, limit: nat)
    requires e.Binary?
    requires ExprAt(s.ch, e, names, p) && |names| < h && Continues(s, p + ExprLen(e), h + 1, limit)
    ensures Continues(s, p, h, limit)
    decreases e, 1
  {
    hide Continues, At, ExprAt, ExprLen, Resolve, OpLen;
    BinaryIs(s.ch, e.op, e.left, e.right, names, p);
    OperatorStands(s, e.op, p + ExprLen(e.left) + ExprLen(e.right), h, limit);
    ExprStands(s, e.right, names, p + ExprLen(e.left), h + 1, limit);
    ExprStands(s, e.left, names, p, h, limit);
  }

  lemma {:induction false} AssignStands(s: Setting, e: Expr, names: seq<string>, p: nat, h: nat, limit: nat)
    requires e.Assign?
    requires ExprAt(s.ch, e, names, p) && |names| < h && Continues(s, p + ExprLen(e), h + 1, limit)
    ensures Continues(s, p, h, limit)
    decreases e, 1
  {
    hide Continues, At, ExprAt, ExprLen, Resolve, OpLen;
    AssignIs(s.ch, e.name, e.rhs, names, p);
    StoreStands(s, e.name, e.rhs, names, p, h, limit);
    ExprStands(s, e.rhs, names, p, h, limit);
  }

  lemma LeafStands(s: Setting, e: Expr, names: seq<string>, p: nat, h: nat, limit: nat)
    requires e.Literal? || e.Variable?
    requires ExprAt(s.ch, e, names, p) && |names| < h && Continues(s, p + ExprLen(e), h + 1, limit)
    ensures Continues(s, p, h, limit)
  {
    hide Continues;
    match e
    case Literal(v) =>
      var i := if v.Nil? then PushNil else if v.Bool? then if v.b then PushTrue else PushFalse else Constant(s.ch.code[p + 1]);
      Straightly(s, i, p, h, limit);
    case Variable(name) =>
      var i := Resolve(names, name);
      Straightly(s, if 0 <= i then GetLocal(i + 1) else GetModule(s.ch.code[p + 1]), p, h, limit);
  }

  lemma StoreStands(s: Setting, name: Name, rhs: Expr, names: seq<string>, p: nat, h: nat, limit: nat)
    requires ExprAt(s.ch, Assign(name, rhs), names, p) && |names| < h
    requires Continues(s, p + ExprLen(rhs) + 2, h + 1, limit)
    ensures Continues(s, p + ExprLen(rhs), h + 1, limit)
  {
    hide Continues;
    var i := Resolve(names, name);
    var q := p + ExprLen(rhs);
    Straightly(s, if 0 <= i then SetLocal(i + 1) else SetModule(s.ch.code[q + 1]), q, h + 1, limit);
  }

  lemma {:induction false} EitherStands(s: Setting, e: Expr, names: seq<string>, p: nat, h: nat, limit: nat)
    requires e.And? || e.Or?
    requires ExprAt(s.ch, e, names, p) && |names| < h && Continues(s, p + ExprLen(e), h + 1, limit)
    ensures Continues(s, p, h, limit)
    decreases e, 1
  {
    hide Continues, At, ExprAt, ExprLen;
    if e.And? { AndIs(s.ch, e.left, e.right, names, p); } else { OrIs(s.ch, e.left, e.right, names, p); }
    var q := p + ExprLen(e.left);
    if e.And? {
      ExprStands(s, e.right, names, q + 4, h, limit);
      PopOne(s, q + 3, h, limit);
      Branches(s, 1 + ExprLen(e.right), q, h + 1, limit);
    } else {
      ExprStands(s, e.right, names, q + 7, h, limit);
      PopOne(s, q + 6, h, limit);
      Jumps(s, 1 + ExprLen(e.right), q + 3, h + 1, limit);
      Branches(s, 3, q, h + 1, limit);
    }
    ExprStands(s, e.left, names, p, h, limit);
  }

  lemma {:induction false} TernaryStands(s: Setting, e: Expr, names: seq<string>, p: nat, h: nat, limit: nat)
    requires e.Ternary?
    requires ExprAt(s.ch, e, names, p) && |names| < h && Continues(s, p + ExprLen(e), h + 1, limit)
    ensures Continues(s, p, h, limit)
    decreases e, 1
  {
    hide Continues, At, ExprAt, ExprLen, Resolve, OpLen;
    TernaryIs(s.ch, e.cond, e.yes, e.no, names, p);
    var q := p + ExprLen(e.cond);
    BothStand(s, e, names, p, h, limit);
    PopOne(s, q + 3, h, limit);
    Branches(s, 4 + ExprLen(e.yes), q, h + 1, limit);
    ExprStands(s, e.cond, names, p, h, limit);
  }

  /** The two alternatives of a conditional expression. */
  lemma {:induction false} BothStand(s: Setting, e: Expr, names: seq<string>, p: nat, h: nat, limit: nat)
    requires e.Ternary?
    requires ExprAt(s.ch, e, names, p) && |names| < h && Continues(s, p + ExprLen(e), h + 1, limit)
    ensures var q := p + ExprLen(e.cond);
            Continues(s, q + 4, h, limit) && Continues(s, q + 7 + ExprLen(e.yes), h + 1, limit)
    decreases e, 0
  {
    hide Continues, At, ExprAt, ExprLen, Resolve, OpLen;
    TernaryIs(s.ch, e.cond, e.yes, e.no, names, p);
    var q := p + ExprLen(e.cond);
    var m := q + 4 + ExprLen(e.yes);
    ExprStands(s, e.no, names, m + 4, h, limit);
    PopOne(s, m + 3, h, limit);
    Jumps(s, 1 + ExprLen(e.no), m, h + 1, limit);
    ExprStands(s, e.yes, names, q + 4, h, limit);
  }

  lemma OperatorStands(s: Setting, op: BinaryOp, q: nat, h: nat, limit: nat)
    requires OperatorAt(s.ch.code, op, q) && Continues(s, q + OpLen(op), h + 1, limit)
    ensures Continues(s, q, h + 2, limit)
  {
    hide Continues, At;
    if OpLen(op) == 2 { Straightly(s, Invert, q + 1, h + 1, limit); }
    var i := match op
      case Equal => TestEqual
      case NotEqual => TestEqual
      case GreaterEqual => Arithmetic(Less)
      case LessEqual => Arithmetic(Greater)
      case Op(o) => Arithmetic(o);
    Straightly(s, i, q, h + 2, limit);
  }

  lemma {:induction false} ExprsStand(s: Setting, es: Exprs, names: seq<string>, p: nat, h: nat, limit: nat)
    requires ExprsAt(s.ch, es, names, p) && |names| < h && Continues(s, p + ExprsLen(es), h + Count(es), limit)
    ensures Continues(s, p, h, limit)
    decreases es
  {
    hide Continues, ExprAt;
    if es.MoreExprs? {
      ExprsStand(s, es.tail, names, p + ExprLen(es.head), h + 1, limit);
      ExprStands(s, es.head, names, p, h, limit);
    }
  }

  lemma InitStands(s: Setting, init: Option<Expr>, default: Instr, names: seq<string>, p: nat, h: nat, limit: nat)
    requires default.PushNil? || default.PushTrue?
    requires InitAt(s.ch, init, default, names, p) && |names| < h && Continues(s, p + InitLen(init), h + 1, limit)
    ensures Continues(s, p, h, limit)
  {
    hide Continues, ExprAt;
    if init.Some? {
      ExprStands(s, init.value, names, p, h, limit);
    } else {
      Straightly(s, default, p, h, limit);
    }
  }

  // ---- statements ----

  /** All is well at the exit of the loop around the code, and at its start for one step less, with `low` values. */
  ghost predicate Leaves(s: Setting, t: Target, low: nat, limit: nat) {
    t.InLoop? ==> && t.exit.Some?
                  && Continues(s, t.exit.value, low, limit)
                  && (limit > 0 ==> Continues(s, t.start, low, limit - 1))
  }

  lemma {:induction false} StmtStands(s: Setting, b: Stmt, names: seq<string>, t: Target, p: nat, low: nat, limit: nat)
    requires StmtAt(s.ch, b, names, t, p) && Ready(t, names) && |names| < low + Extra(names, t)
    requires Continues(s, p + StmtLen(b, Extra(names, t)), low + Extra(names, t), limit) && Leaves(s, t, low, limit)
    ensures Continues(s, p, low + Extra(names, t), limit)
    decreases limit, b, 2
  {
    hide Continues, ExprAt, At, ForAt, WhileAt, CasesAt, ItemsAt, PopsAt, Leaves, Extra;
    var k := Extra(names, t);
    var h := low + k;
    match b
    case Evaluate(e) =>
      PopOne(s, p + ExprLen(e), h, limit);
      ExprStands(s, e, names, p, h, limit);
    case Block(_) => BlockStands(s, b, names, t, p, low, limit);
    case If(_, _, _) => IfStands(s, b, names, t, p, low, limit);
    case While(test, body) => WhileStands(s, test, body, names, p, h, limit);
    case For(_, _, _, _) => ForStatementStands(s, b, names, t, p, low, limit);
    case Switch(subject, cases) =>
      CasesStand(s, cases, names, t, p + ExprLen(subject), low, limit);
      ExprStands(s, subject, names, p, h, limit);
    case Break => LeaveStands(s, b, names, t, p, low, limit);
    case Continue => LeaveStands(s, b, names, t, p, low, limit);
  }

  lemma {:induction false} BlockStands(s: Setting, b: Stmt, names: seq<string>, t: Target, p: nat, low: nat, limit: nat)
    requires b.Block? && StmtAt(s.ch, b, names, t, p) && Ready(t, names) && |names| < low + Extra(names, t)
    requires Continues(s, p + StmtLen(b, Extra(names, t)), low + Extra(names, t), limit) && Leaves(s, t, low, limit)
    ensures Continues(s, p, low + Extra(names, t), limit)
    decreases limit, b, 1
  {
    hide Continues, ItemsAt, ItemsLen, PopsAt, Leaves, Extra, Declared;
    Pops(s, p + ItemsLen(b.items, false, Extra(names, t)), Declared(b.items), low + Extra(names, t), limit);
    ItemsStand(s, b.items, false, names, t, p, low, limit);
  }

  lemma {:induction false} ForStatementStands(s: Setting, b: Stmt, names: seq<string>, t: Target, p: nat, low: nat,
                                              limit: nat)
    requires b.For? && StmtAt(s.ch, b, names, t, p) && Ready(t, names) && |names| < low + Extra(names, t)
    requires Continues(s, p + StmtLen(b, Extra(names, t)), low + Extra(names, t), limit) && Leaves(s, t, low, limit)
    ensures Continues(s, p, low + Extra(names, t), limit)
    decreases limit, b, 1
  {
    hide Continues, ItemsAt, ItemsLen, ForAt, PopsAt, Leaves, Extra, Declared, TestLen, StepLen, StmtLen;
    var h := low + Extra(names, t);
    var q := p + ItemsLen(b.init, false, Extra(names, t));
    ForStatementLen(b, Extra(names, t));
    Pops(s, q + ForLen(b.test, b.step, b.body), Declared(b.init), h, limit);
    ForStands(s, b.test, b.step, b.body, ExtendAll(names, b.init, false), q, h + Declared(b.init), limit);
    ItemsStand(s, b.init, false, names, t, p, low, limit);
  }

  lemma ForStatementLen(b: Stmt, extra: nat)
    requires b.For?
    ensures StmtLen(b, extra) == ItemsLen(b.init, false, extra) + ForLen(b.test, b.step, b.body) + Declared(b.init)
  {
    hide ItemsLen, TestLen, StepLen, Declared;
  }

  lemma LeaveStands(s: Setting, b: Stmt, names: seq<string>, t: Target, p: nat, low: nat, limit: nat)
    requires (b.Break? || b.Continue?) && StmtAt(s.ch, b, names, t, p) && Leaves(s, t, low, limit)
    ensures Continues(s, p, low + Extra(names, t), limit)
  {
    hide Continues, At, PopsAt;
    var q := p + Extra(names, t);
    if b.Break? {
      Jumps(s, t.exit.value - (q + 3), q, low, limit);
    } else {
      Repeats(s, q + 3 - t.start, q, low, limit);
    }
    Pops(s, p, Extra(names, t), low, limit);
  }

  lemma {:induction false} IfStands(s: Setting, b: Stmt, names: seq<string>, t: Target, p: nat, low: nat, limit: nat)
    requires b.If? && StmtAt(s.ch, b, names, t, p) && Ready(t, names) && |names| < low + Extra(names, t)
    requires Continues(s, p + StmtLen(b, Extra(names, t)), low + Extra(names, t), limit) && Leaves(s, t, low, limit)
    ensures Continues(s, p, low + Extra(names, t), limit)
    decreases limit, b, 1
  {
    hide Continues, ExprAt, At, Leaves, Extra;
    var k := Extra(names, t);
    var h := low + k;
    var q := p + ExprLen(b.cond);
    var m := q + 4 + StmtLen(b.yes, k);
    if b.no.Some? { StmtStands(s, b.no.value, names, t, m + 4, low, limit); }
    PopOne(s, m + 3, h, limit);
    Jumps(s, 1 + if b.no.Some? then StmtLen(b.no.value, k) else 0, m, h, limit);
    StmtStands(s, b.yes, names, t, q + 4, low, limit);
    PopOne(s, q + 3, h, limit);
    Branches(s, m + 3 - (q + 3), q, h + 1, limit);
    ExprStands(s, b.cond, names, p, h, limit);
  }

  lemma {:induction false} CasesStand(s: Setting, cases: Cases, names: seq<string>, t: Target, p: nat, low: nat, limit: nat)
    requires CasesAt(s.ch, cases, names, t, p, p + CasesLen(cases, Extra(names, t))) && Ready(t, names)
    requires |names| < low + Extra(names, t) && Leaves(s, t, low, limit)
    requires Continues(s, p + CasesLen(cases, Extra(names, t)), low + Extra(names, t), limit)
    ensures Continues(s, p, low + Extra(names, t) + 1, limit)
    decreases limit, cases, 1
  {
    hide Continues, ExprAt, ExprsAt, At, Leaves, Extra, StmtAt;
    var h := low + Extra(names, t);
    match cases
    case Otherwise(default) =>
      if default.Some? { StmtStands(s, default.value, names, t, p + 1, low, limit); }
      PopOne(s, p, h, limit);
    case MoreCases(first, more, _, _) =>
      LabelStands(s, cases, names, t, p, low, limit);
      if more.MoreExprs? { Picks(s, Count(more), p + ExprLen(first) + ExprsLen(more), h + 2, limit); }
      ExprsStand(s, more, names, p + ExprLen(first), h + 2, limit);
      ExprStands(s, first, names, p, h + 1, limit);
  }

  /** From the comparison of a label on: the subject and the value to compare with it are on top. */
  lemma {:induction false} LabelStands(s: Setting, cases: Cases, names: seq<string>, t: Target, p: nat, low: nat, limit: nat)
    requires cases.MoreCases? && Ready(t, names)
    requires CasesAt(s.ch, cases, names, t, p, p + CasesLen(cases, Extra(names, t)))
    requires |names| < low + Extra(names, t) && Leaves(s, t, low, limit)
    requires Continues(s, p + CasesLen(cases, Extra(names, t)), low + Extra(names, t), limit)
    ensures Continues(s, p + ExprLen(cases.first) + ExprsLen(cases.more) + MultiLen(cases.more), low + Extra(names, t) + 2,
                      limit)
    decreases limit, cases, 0
  {
    hide Continues, ExprAt, ExprsAt, At, Leaves, Extra, StmtAt;
    var k := Extra(names, t);
    var j := p + ExprLen(cases.first) + ExprsLen(cases.more) + MultiLen(cases.more);
    var m := j + 3 + StmtLen(cases.body, k);
    CasesStand(s, cases.rest, names, t, m + 3, low, limit);
    Jumps(s, p + CasesLen(cases, k) - (m + 3), m, low + k, limit);
    StmtStands(s, cases.body, names, t, j + 3, low, limit);
    Compares(s, m + 3 - (j + 3), j, low + k, limit);
  }

  lemma {:induction false} ItemsStand(s: Setting, items: Items, global: bool, names: seq<string>, t: Target, p: nat,
                                      low: nat, limit: nat)
    requires ItemsAt(s.ch, items, global, names, t, p) && Ready(t, names)
    requires |names| < low + Extra(names, t) && Leaves(s, t, low, limit)
    requires Continues(s, p + ItemsLen(items, global, Extra(names, t)),
                       low + Extra(names, t) + (if global then 0 else Declared(items)), limit)
    ensures Continues(s, p, low + Extra(names, t), limit)
    decreases limit, items, 1
  {
    hide Continues, ExprAt, At, StmtAt;
    match items
    case NoItems =>
    case MoreItems(head, tail) =>
      var k := Extra(names, t);
      var q := p + ItemLen(head, global, k);
      ItemsStand(s, tail, global, Extend(names, head, global), t, q, low, limit);
      match head {
        case Perform(b) => StmtStands(s, b, names, t, p, low, limit);
        case Declare(_, _, _) => DeclareStands(s, head, global, names, t, p, low + k, limit);
      }
  }

  lemma DeclareStands(s: Setting, item: Item, global: bool, names: seq<string>, t: Target, p: nat, h: nat, limit: nat)
    requires item.Declare? && ItemAt(s.ch, item, global, names, t, p) && |names| < h
    requires Continues(s, p + ItemLen(item, global, Extra(names, t)), if global then h else h + 1, limit)
    ensures Continues(s, p, h, limit)
  {
    hide Continues, ExprAt;
    var q := p + InitLen(item.init);
    if global { Straightly(s, DefineModule(s.ch.code[q + 1]), q, h + 1, limit); }
    InitStands(s, item.init, PushNil, names, p, h, limit);
  }

  lemma {:induction false} WhileStands(s: Setting, test: Option<Expr>, body: Stmt, names: seq<string>, p: nat, h: nat,
                                       limit: nat)
    requires WhileAt(s.ch, test, body, names, p) && |names| < h
    requires Continues(s, p + InitLen(test) + StmtLen(body, 0) + 8, h, limit)
    ensures Continues(s, p, h, limit)
    decreases limit, body, 4
  {
    hide Continues, ExprAt, At, StmtAt, InitAt, StmtLen, ExprLen;
    var q := p + InitLen(test);
    var m := q + 4 + StmtLen(body, 0);
    WhileBodyStands(s, test, body, names, p, h, limit);
    StmtStands(s, body, names, InLoop(p, |names|, Some(m + 4)), q + 4, h, limit);
    PopOne(s, q + 3, h, limit);
    PopOne(s, m + 3, h, limit);
    Branches(s, m + 3 - (q + 3), q, h + 1, limit);
    InitStands(s, test, PushTrue, names, p, h, limit);
  }

  /** Wherever the body of a `while` leads. */
  lemma {:induction false} WhileBodyStands(s: Setting, test: Option<Expr>, body: Stmt, names: seq<string>, p: nat, h: nat,
                                           limit: nat)
    requires WhileAt(s.ch, test, body, names, p) && |names| < h
    requires Continues(s, p + InitLen(test) + StmtLen(body, 0) + 8, h, limit)
    ensures var m := p + InitLen(test) + 4 + StmtLen(body, 0);
            Continues(s, m, h, limit) && Leaves(s, InLoop(p, |names|, Some(m + 4)), h, limit)
    decreases limit, body, 3
  {
    hide Continues, ExprAt, At, StmtAt, InitAt, StmtLen, InitLen;
    var m := p + InitLen(test) + 4 + StmtLen(body, 0);
    if limit > 0 {
      ContinuesLess(s, m + 4, h, limit, limit - 1);
      WhileStands(s, test, body, names, p, h, limit - 1);
    }
    Repeats(s, m + 3 - p, m, h, limit);
  }

  lemma {:induction false} ForStands(s: Setting, test: Option<Expr>, step: Option<Expr>, body: Stmt, names: seq<string>,
                                     p: nat, h: nat, limit: nat)
    requires ForAt(s.ch, test, step, body, names, p) && |names| < h
    requires Continues(s, p + ForLen(test, step, body), h, limit)
    ensures Continues(s, p, h, limit)
    decreases limit, body, 4
  {
    hide Continues, ExprAt, At, StmtAt, StmtLen, ExprLen;
    var q := p + TestLen(test);
    var b := q + StepLen(step);
    var m := b + StmtLen(body, 0);
    var exit := p + ForLen(test, step, body);
    ForBodyStands(s, test, step, body, names, p, h, limit);
    StmtStands(s, body, names, InLoop(if step.Some? then q + 3 else p, |names|, Some(exit)), b, h, limit);
    if step.Some? { Jumps(s, b - (q + 3), q, h, limit); }
    if test.Some? {
      var j := p + ExprLen(test.value);
      PopOne(s, j + 3, h, limit);
      PopOne(s, m + 3, h, limit);
      Branches(s, m + 3 - (j + 3), j, h + 1, limit);
      ExprStands(s, test.value, names, p, h, limit);
    }
  }

  /** Wherever the body of a `for` leads. */
  lemma {:induction false} ForBodyStands(s: Setting, test: Option<Expr>, step: Option<Expr>, body: Stmt, names: seq<string>,
                                         p: nat, h: nat, limit: nat)
    requires ForAt(s.ch, test, step, body, names, p) && |names| < h
    requires Continues(s, p + ForLen(test, step, body), h, limit)
    ensures var b := p + TestLen(test) + StepLen(step);
            var back := if step.Some? then p + TestLen(test) + 3 else p;
            && Continues(s, b + StmtLen(body, 0), h, limit)
            && Leaves(s, InLoop(back, |names|, Some(p + ForLen(test, step, body))), h, limit)
    decreases limit, body, 3
  {
    hide Continues, ExprAt, At, StmtAt, StmtLen, ForLen, ExprLen, TestLen;
    var m := p + TestLen(test) + StepLen(step) + StmtLen(body, 0);
    var back := if step.Some? then p + TestLen(test) + 3 else p;
    if limit > 0 {
      ContinuesLess(s, p + ForLen(test, step, body), h, limit, limit - 1);
      ForStands(s, test, step, body, names, p, h, limit - 1);
      StepStands(s, test, step, body, names, p, h, limit - 1);
    }
    Repeats(s, m + 3 - back, m, h, limit);
  }

  /** The step of a `for` leads back to its test. */
  lemma StepStands(s: Setting, test: Option<Expr>, step: Option<Expr>, body: Stmt, names: seq<string>, p: nat, h: nat,
                   limit: nat)
    requires ForAt(s.ch, test, step, body, names, p) && |names| < h && Continues(s, p, h, limit)
    ensures Continues(s, if step.Some? then p + TestLen(test) + 3 else p, h, limit)
  {
    hide Continues, ExprAt, At, StmtAt, StmtLen, ExprLen, TestLen;
    if step.Some? {
      var q := p + TestLen(test);
      var b := q + StepLen(step);
      if limit > 0 { ContinuesLess(s, p, h, limit, limit - 1); }
      Repeats(s, b - p, b - 3, h, limit);
      PopOne(s, b - 4, h, limit);
      ExprStands(s, step.value, names, q + 3, h, limit);
    }
  }

  // ---- whole programs ----

  /** The code of a program, entered with a multiple of 256 values too many, is left with at least as many. */
  lemma ProgramStands(s: Setting, program: Items, extra: nat, limit: nat)
    requires ProgramAt(s.ch, program) && s.least <= extra && extra % 256 == 0
    ensures Continues(s, 0, extra + 1, limit)
  {
    hide Continues, At, ItemsAt;
    EndStands(s, program, extra, limit);
    ItemsStand(s, program, true, [], NoLoop, 0, extra + 1, limit);
  }

  lemma EndStands(s: Setting, program: Items, extra: nat, limit: nat)
    requires ProgramAt(s.ch, program) && s.least <= extra && extra % 256 == 0
    ensures Continues(s, ItemsLen(program, true, 0), extra + 1, limit)
  {
    hide Continues, At, ItemsAt;
    var q := ItemsLen(program, true, 0);
    Returns(s, q + 1, extra, limit);
    Straightly(s, PushNil, q, extra + 1, limit);
  }
}
