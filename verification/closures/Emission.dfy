/** The code of the functions whose paths `Discarding` follows, and the machine that runs it. Statements are emitted one after
    the other with the marks that are set by then; jumps count instructions. What the machine does is what is on the path. */
module Emission {
  import opened Options
  import opened Upvalues
  import opened Discarding

  /** `PopValue` is one instruction; for what it is meant makes no difference to the machine. `JumpIfFalse` leaves the value. */
  datatype Instr =
    | PushValue
    | MakeClosure(captured: seq<nat>)
    | Operate
    | PopValue(variable: bool)
    | CloseUpvalue
    | JumpIfFalse(offset: int)
    | Jump(offset: int)
    | CallFunction(count: nat, callee: nat)
    | ReturnValue
    | BreakMark
    | ContinueMark

  type Code = seq<Instr>

  // ---- emission ----

  function ExprCode(e: Expr): Code
    decreases e
  {
    match e
    case Constant => [PushValue]
    case Closure(captured) => [MakeClosure(captured)]
    case Binary(l, r) => ExprCode(l) + (ExprCode(r) + [Operate])
    case Either(isOr, l, r) => EitherCode(isOr, ExprCode(l), ExprCode(r))
    case Apply(called, callee, args) => ExprCode(called) + (ExprsCode(args) + [CallFunction(Count(args), callee)])
  }

  /** `or` jumps over its jump to the end. */
  function EitherCode(isOr: bool, l: Code, r: Code): Code {
    if isOr then l + ([JumpIfFalse(2)] + ([Jump(|r| + 2)] + ([PopValue(false)] + r)))
    else l + ([JumpIfFalse(|r| + 2)] + ([PopValue(false)] + r))
  }

  function ExprsCode(es: Exprs): Code
    decreases es
  {
    match es
    case NoExprs => []
    case MoreExprs(head, tail) => ExprCode(head) + ExprsCode(tail)
  }

  /** The variables from the last one down to number `kept` go. */
  function DiscardCode(marks: Marks, kept: nat): Code
    decreases |marks|
  {
    if |marks| <= kept then []
    else [if marks[|marks| - 1] then CloseUpvalue else PopValue(true)] + DiscardCode(marks[..|marks| - 1], kept)
  }

  function IfCode(cond: Code, yes: Code, no: Code): Code {
    cond + ([JumpIfFalse(|yes| + 3)] + ([PopValue(false)] + (yes + ([Jump(|no| + 2)] + ([PopValue(false)] + no)))))
  }

  /** The step stands before the body, behind a jump over it. */
  function LoopCode(test: Code, step: Code, body: Code): Code {
    test + ([JumpIfFalse(|step| + |body| + 6)] + ([PopValue(false)] + ([Jump(|step| + 3)] + (step
         + ([PopValue(false)] + ([Jump(-(|test| + |step| + 4))] + (PatchedBody(test, step, body)
         + ([Jump(-(|step| + |body| + 2))] + [PopValue(false)]))))))))
  }

  /** `break` goes to the end of the loop, `continue` to the step. */
  function PatchedBody(test: Code, step: Code, body: Code): Code {
    Patched(body, |test| + |step| + 5, Into(|test| + |step| + |body| + 7, |test| + 3))
  }

  /** Where `break` and `continue` go. */
  datatype Aim = Nowhere | Into(exit: int, again: int)

  function Aimed(x: Instr, here: int, aim: Aim): Instr {
    if aim.Nowhere? then x
    else match x
      case BreakMark => Jump(aim.exit - here)
      case ContinueMark => Jump(aim.again - here)
      case _ => x
  }

  function Patched(body: Code, before: nat, aim: Aim): (r: Code)
    ensures |r| == |body|
  {
    seq(|body|, i requires 0 <= i < |body| => Aimed(body[i], before + i, aim))
  }

  function StmtCode(s: Stmt, marks: Marks, base: nat): Code
    decreases s
  {
    match s
    case Evaluate(e) => ExprCode(e) + [PopValue(false)]
    case Block(items) => ItemsCode(items, marks, base) + DiscardCode(AfterAll(marks, items), |marks|)
    case If(cond, yes, no) =>
      var m := Marked(marks, Captures(cond));
      IfCode(ExprCode(cond), StmtCode(yes, m, base), StmtCode(no, After(m, yes), base))
    case Loop(test, step, body) => LoopCode(ExprCode(test), ExprCode(step), StmtCode(body, Inside(marks, s), |marks|))
    case Break => DiscardCode(marks, base) + [BreakMark]
    case Continue => DiscardCode(marks, base) + [ContinueMark]
    case Return(e) => ExprCode(e) + [ReturnValue]
  }

  function ItemsCode(items: Items, marks: Marks, base: nat): Code
    decreases items
  {
    match items
    case NoItems => []
    case MoreItems(head, tail) => ItemCode(head, marks, base) + ItemsCode(tail, AfterItem(marks, head), base)
  }

  function ItemCode(item: Item, marks: Marks, base: nat): Code
    decreases item
  {
    match item
    case Declare(init) => ExprCode(init)
    case Perform(s) => StmtCode(s, marks, base)
  }

  /** At the end nil is returned. */
  function FunctionCode(f: Function): Code {
    ItemsCode(f.body, Unmarked(1 + f.arity), 1) + ([PushValue] + [ReturnValue])
  }

  function Program(fns: seq<Function>): (r: seq<Code>)
    ensures |r| == |fns|
  {
    seq(|fns|, i requires 0 <= i < |fns| => FunctionCode(fns[i]))
  }

  // ---- the machine ----

  datatype Frame = Frame(fn: nat, ip: int, slots: nat)

  /** `bits` are the outcomes of conditions that are left; a call uses up one as well. */
  datatype Config = Config(frames: seq<Frame>, height: nat, bits: seq<bool>, did: seq<Did>)

  function Top(c: Config): Frame
    requires c.frames != []
  {
    c.frames[|c.frames| - 1]
  }

  /** The same frames, at another place of the innermost function, with what was done on `p`. */
  function At(c: Config, ip: int, height: nat, p: Path): (r: Config)
    requires c.frames != []
    ensures |r.frames| == |c.frames| && r.frames[|c.frames| - 1] == Top(c).(ip := ip)
  {
    Config(c.frames[|c.frames| - 1 := Top(c).(ip := ip)], height, p.rest, c.did + p.did)
  }

  function Doing(c: Config, did: seq<Did>): Path {
    Path(Finished, c.bits, did)
  }

  /** None if the machine is blocked. */
  function Exec(c: Config, x: Instr): Option<Config>
    requires c.frames != []
  {
    var f := Top(c);
    match x
    case PushValue => Some(At(c, f.ip + 1, c.height + 1, Doing(c, [Pushed])))
    case MakeClosure(captured) => Some(At(c, f.ip + 1, c.height + 1, Doing(c, [Pushed] + CapturedAll(captured, f.slots))))
    case Operate =>
      if c.height < 2 then None else Some(At(c, f.ip + 1, c.height - 1, Doing(c, [TempPopped, TempPopped, Pushed])))
    case PopValue(variable) =>
      if c.height == 0 then None
      else Some(At(c, f.ip + 1, c.height - 1, Doing(c, [if variable then VariablePopped else TempPopped])))
    case CloseUpvalue => if c.height == 0 then None else Some(At(c, f.ip + 1, c.height - 1, Doing(c, [Closed])))
    case JumpIfFalse(offset) =>
      if c.bits == [] then None
      else Some(At(c, if c.bits[0] then f.ip + 1 else f.ip + offset, c.height, Path(Finished, c.bits[1..], [])))
    case Jump(offset) => Some(At(c, f.ip + offset, c.height, Doing(c, [])))
    case CallFunction(count, callee) =>
      if c.bits == [] || c.height <= count then None
      else Some(Called(c, callee, c.height - 1 - count))
    case ReturnValue => Some(Returning(c, f.slots + 1, Doing(c, [Returned(f.slots)])))
    case BreakMark => None
    case ContinueMark => None
  }

  function Called(c: Config, callee: nat, slots: nat): Config
    requires c.frames != [] && c.bits != []
  {
    Config(c.frames[|c.frames| - 1 := Top(c).(ip := Top(c).ip + 1)] + [Frame(callee, 0, slots)], c.height, c.bits[1..], c.did)
  }

  function Returning(c: Config, height: nat, p: Path): Config
    requires c.frames != []
  {
    Config(c.frames[..|c.frames| - 1], height, p.rest, c.did + p.did)
  }

  function Step(prog: seq<Code>, c: Config): Option<Config> {
    if c.frames == [] then None
    else
      var f := Top(c);
      if f.fn < |prog| && 0 <= f.ip < |prog[f.fn]| then Exec(c, prog[f.fn][f.ip]) else None
  }

  /** As far as `n` steps go; a machine that is blocked stays where it is. */
  function Run(prog: seq<Code>, c: Config, n: nat): Config
    decreases n
  {
    if n == 0 || Step(prog, c).None? then c else Run(prog, Step(prog, c).value, n - 1)
  }

  lemma {:induction false} RunAdd(prog: seq<Code>, c: Config, m: nat, n: nat)
    ensures Run(prog, c, m + n) == Run(prog, Run(prog, c, m), n)
    decreases m
  {
    if m > 0 && Step(prog, c).Some? { RunAdd(prog, Step(prog, c).value, m - 1, n); }
    if Step(prog, c).None? { Blocked(prog, c, m + n); Blocked(prog, c, n); }
  }

  lemma Blocked(prog: seq<Code>, c: Config, n: nat)
    requires Step(prog, c).None?
    ensures Run(prog, c, n) == c
  {
  }

  // ---- where code lies ----

  predicate Holds(code: Code, at: int, part: Code, aim: Aim) {
    0 <= at && at + |part| <= |code| && forall i :: 0 <= i < |part| ==> code[at + i] == Aimed(part[i], at + i, aim)
  }

  lemma HoldsBoth(code: Code, at: int, a: Code, b: Code, aim: Aim)
    requires Holds(code, at, a + b, aim)
    ensures Holds(code, at, a, aim) && Holds(code, at + |a|, b, aim)
  {
    forall i | 0 <= i < |a|
      ensures code[at + i] == Aimed(a[i], at + i, aim)
    {
      assert (a + b)[i] == a[i];
    }
    forall i | 0 <= i < |b|
      ensures code[at + |a| + i] == Aimed(b[i], at + |a| + i, aim)
    {
      assert (a + b)[|a| + i] == b[i];
    }
  }

  lemma HoldsPatched(code: Code, at: int, body: Code, before: nat, inner: Aim, aim: Aim)
    requires inner.Into? && Holds(code, at, Patched(body, before, inner), aim)
    ensures Holds(code, at, body, Into(at - before + inner.exit, at - before + inner.again))
  {
    forall i | 0 <= i < |body|
      ensures code[at + i] == Aimed(body[i], at + i, Into(at - before + inner.exit, at - before + inner.again))
    {
      assert Patched(body, before, inner)[i] == Aimed(body[i], before + i, inner);
    }
  }

  /** This code lies where the machine is. */
  predicate Here(prog: seq<Code>, c: Config, part: Code, aim: Aim) {
    c.frames != [] && Top(c).fn < |prog| && Holds(prog[Top(c).fn], Top(c).ip, part, aim)
  }

  lemma HereBoth(prog: seq<Code>, c: Config, a: Code, b: Code, aim: Aim)
    requires Here(prog, c, a + b, aim)
    ensures Here(prog, c, a, aim) && Holds(prog[Top(c).fn], Top(c).ip + |a|, b, aim)
  {
    HoldsBoth(prog[Top(c).fn], Top(c).ip, a, b, aim);
  }

  // ---- getting there ----

  /** Where the code ends, how high the stack is then, where `break` and `continue` go and how many variables they leave. */
  datatype Goal = Goal(ip: int, height: nat, aim: Aim, base: nat)

  function Target(c: Config, p: Path, g: Goal): Config
    requires c.frames != []
  {
    match p.flow
    case Finished => At(c, g.ip, g.height, p)
    case Broke => At(c, if g.aim.Into? then g.aim.exit else 0, Top(c).slots + g.base, p)
    case Continued => At(c, if g.aim.Into? then g.aim.again else 0, Top(c).slots + g.base, p)
    case Left => Returning(c, Top(c).slots + 1, p)
    case Cut => c
  }

  /** After `n` steps the machine has done what is on the path, and is where the path leads; or it is blocked for want of
      an outcome. */
  predicate Arrives(prog: seq<Code>, c: Config, n: nat, p: Path, g: Goal)
    requires c.frames != []
  {
    var r := Run(prog, c, n);
    && (p.flow == Broke || p.flow == Continued ==> g.aim.Into?)
    && if p.flow == Cut then r.did == c.did + p.did && r.bits == p.rest == [] && Step(prog, r).None? && r.frames != []
    else r == Target(c, p, g)
  }

  lemma AtAt(c: Config, ip: int, height: nat, p: Path, q: Path, g: Goal)
    requires c.frames != []
    ensures q.flow != Cut ==> Target(At(c, ip, height, p), q, g) == Target(c, First(p.did, q), g)
  {
    var d := At(c, ip, height, p);
    assert d.did + q.did == c.did + (p.did + q.did);
    if q.flow != Cut && q.flow != Left {
      var ip := Top(Target(d, q, g)).ip;
      assert d.frames[|d.frames| - 1 := Top(d).(ip := ip)] == c.frames[|c.frames| - 1 := Top(c).(ip := ip)];
    }
    assert d.frames[..|d.frames| - 1] == c.frames[..|c.frames| - 1];
  }

  /** One path after the other. */
  lemma Follow(prog: seq<Code>, c: Config, m: nat, ip: int, height: nat, p: Path, n: nat, q: Path, g: Goal)
    requires c.frames != [] && Run(prog, c, m) == At(c, ip, height, p) && Arrives(prog, At(c, ip, height, p), n, q, g)
    ensures Arrives(prog, c, m + n, First(p.did, q), g)
  {
    hide Run, Step;
    RunAdd(prog, c, m, n);
    AtAt(c, ip, height, p, q, g);
    assert c.did + p.did + q.did == c.did + (p.did + q.did);
  }

  /** One more instruction. */
  lemma Advance(prog: seq<Code>, c: Config, m: nat, ip: int, height: nat, p: Path, x: Instr, aim: Aim)
    requires c.frames != [] && Run(prog, c, m) == At(c, ip, height, p) && Here(prog, At(c, ip, height, p), [x], aim)
    ensures var d := At(c, ip, height, p);
            var y := Aimed(x, ip, aim);
            && Step(prog, d) == Exec(d, y)
            && (Exec(d, y).Some? ==> Run(prog, c, m + 1) == Exec(d, y).value)
  {
    hide Exec, Run;
    var d := At(c, ip, height, p);
    assert prog[Top(d).fn][ip + 0] == Aimed([x][0], ip, aim);
    RunAdd(prog, c, m, 1);
    if Step(prog, d).Some? { OneStep(prog, d); }
  }

  lemma OneStep(prog: seq<Code>, c: Config)
    requires Step(prog, c).Some?
    ensures Run(prog, c, 1) == Step(prog, c).value
  {
  }

  lemma StartAt(prog: seq<Code>, c: Config)
    requires c.frames != []
    ensures Run(prog, c, 0) == c == At(c, Top(c).ip, c.height, Doing(c, []))
  {
    assert c.did + [] == c.did;
  }

  /** One more instruction that stays in the function. */
  lemma Does(prog: seq<Code>, c: Config, m: nat, ip: int, height: nat, p: Path, x: Instr, aim: Aim,
      next: int, h: nat, q: Path)
    requires c.frames != [] && Run(prog, c, m) == At(c, ip, height, p) && Here(prog, At(c, ip, height, p), [x], aim)
    requires var d := At(c, ip, height, p); Exec(d, Aimed(x, ip, aim)) == Some(At(d, next, h, q))
    ensures Run(prog, c, m + 1) == At(c, next, h, First(p.did, q))
  {
    hide Exec, Run, Holds;
    Advance(prog, c, m, ip, height, p, x, aim);
    AtAt(c, ip, height, p, q.(flow := Finished), Goal(next, h, aim, 0));
  }

  lemma Pops(prog: seq<Code>, c: Config, m: nat, ip: int, height: nat, p: Path, aim: Aim)
    requires c.frames != [] && Run(prog, c, m) == At(c, ip, height, p) && height > 0
    requires Here(prog, At(c, ip, height, p), [PopValue(false)], aim)
    ensures Run(prog, c, m + 1) == At(c, ip + 1, height - 1, Then(p, [TempPopped]))
  {
    hide Run, Holds;
    var d := At(c, ip, height, p);
    Does(prog, c, m, ip, height, p, PopValue(false), aim, ip + 1, height - 1, Doing(d, [TempPopped]));
  }

  lemma Jumps(prog: seq<Code>, c: Config, m: nat, ip: int, height: nat, p: Path, offset: int, aim: Aim)
    requires c.frames != [] && Run(prog, c, m) == At(c, ip, height, p)
    requires Here(prog, At(c, ip, height, p), [Jump(offset)], aim)
    ensures Run(prog, c, m + 1) == At(c, ip + offset, height, p)
  {
    hide Run, Holds;
    var d := At(c, ip, height, p);
    Does(prog, c, m, ip, height, p, Jump(offset), aim, ip + offset, height, Doing(d, []));
    assert p.did + [] == p.did;
  }

  /** The condition stays on the stack, on both ways. */
  lemma Branches(prog: seq<Code>, c: Config, m: nat, ip: int, height: nat, p: Path, offset: int, aim: Aim, g: Goal)
    requires c.frames != [] && Run(prog, c, m) == At(c, ip, height, p)
    requires Here(prog, At(c, ip, height, p), [JumpIfFalse(offset)], aim)
    ensures p.rest == [] ==> Arrives(prog, c, m, p.(flow := Cut), g)
    ensures p.rest != [] ==>
      Run(prog, c, m + 1) == At(c, if p.rest[0] then ip + 1 else ip + offset, height, p.(rest := p.rest[1..]))
  {
    hide Run, Holds, Step;
    var d := At(c, ip, height, p);
    if p.rest == [] {
      Advance(prog, c, m, ip, height, p, JumpIfFalse(offset), aim);
    } else {
      var next := if p.rest[0] then ip + 1 else ip + offset;
      Does(prog, c, m, ip, height, p, JumpIfFalse(offset), aim, next, height, Path(Finished, p.rest[1..], []));
      assert p.did + [] == p.did;
    }
  }

  lemma Reached(prog: seq<Code>, c: Config, n: nat, p: Path, g: Goal)
    requires c.frames != [] && p.flow == Finished
    ensures Arrives(prog, c, n, p, g) <==> Run(prog, c, n) == At(c, g.ip, g.height, p)
  {
  }

  lemma ReachedLoop(prog: seq<Code>, c: Config, n: nat, p: Path, g: Goal)
    requires c.frames != [] && g.aim.Into? && (p.flow == Broke || p.flow == Continued)
    ensures Arrives(prog, c, n, p, g) <==>
      Run(prog, c, n) == At(c, if p.flow == Broke then g.aim.exit else g.aim.again, Top(c).slots + g.base, p)
  {
  }

  /** Where the code ends matters only to paths that get there. */
  lemma Elsewhere(prog: seq<Code>, c: Config, n: nat, p: Path, g: Goal, h: Goal)
    requires c.frames != [] && p.flow != Finished && Arrives(prog, c, n, p, g)
    requires p.flow == Cut || p.flow == Left || (g.aim == h.aim && g.base == h.base)
    ensures Arrives(prog, c, n, p, h)
  {
  }

  /** A path that goes on, unless it ends before. */
  lemma Both(prog: seq<Code>, c: Config, m: nat, p: Path, via: Goal, n: nat, q: Path, g: Goal) returns (k: nat)
    requires c.frames != [] && Arrives(prog, c, m, p, via) && via.aim == g.aim && via.base == g.base
    requires p.flow == Finished ==> Arrives(prog, At(c, via.ip, via.height, p), n, q, g)
    ensures Arrives(prog, c, k, if p.flow == Finished then First(p.did, q) else p, g)
  {
    hide Run, Step, Arrives;
    if p.flow == Finished {
      Reached(prog, c, m, p, via);
      Follow(prog, c, m, via.ip, via.height, p, n, q, g);
      k := m + n;
    } else {
      Elsewhere(prog, c, m, p, via, g);
      k := m;
    }
  }

  // ---- expressions ----

  predicate Ready(prog: seq<Code>, fns: seq<Function>) {
    prog == Program(fns) && FunctionsFit(fns)
  }

  function AfterExpr(c: Config, code: Code, aim: Aim, base: nat): Goal
    requires c.frames != []
  {
    Goal(Top(c).ip + |code|, c.height + 1, aim, base)
  }

  lemma {:induction false} ExprRuns(prog: seq<Code>, fns: seq<Function>, e: Expr, locals: nat, aim: Aim, base: nat, c: Config)
    returns (n: nat)
    requires Ready(prog, fns) && FitExpr(e, locals, fns) && Here(prog, c, ExprCode(e), aim)
    ensures Arrives(prog, c, n, ExprPath(fns, e, Top(c).slots, c.height, c.bits), AfterExpr(c, ExprCode(e), aim, base))
    decreases |c.bits|, e, 1
  {
    hide Ready, FitExpr, Here, Holds, Arrives, Run, Step;
    match e
    case Constant => n := ConstantRuns(prog, fns, e, aim, base, c);
    case Closure(_) => n := ClosureRuns(prog, fns, e, aim, base, c);
    case Binary(_, _) => n := BinaryRuns(prog, fns, e, locals, aim, base, c);
    case Either(_, _, _) => n := EitherRuns(prog, fns, e, locals, aim, base, c);
    case Apply(_, _, _) => n := ApplyRuns(prog, fns, e, locals, aim, base, c);
  }

  lemma ConstantRuns(prog: seq<Code>, fns: seq<Function>, e: Expr, aim: Aim, base: nat, c: Config) returns (n: nat)
    requires e.Constant? && Here(prog, c, ExprCode(e), aim)
    ensures Arrives(prog, c, n, ExprPath(fns, e, Top(c).slots, c.height, c.bits), AfterExpr(c, ExprCode(e), aim, base))
  {
    hide Run, Step, Holds;
    StartAt(prog, c);
    var f := Top(c);
    Does(prog, c, 0, f.ip, c.height, Doing(c, []), PushValue, aim, f.ip + 1, c.height + 1, Doing(c, [Pushed]));
    n := 1;
    assert [] + [Pushed] == [Pushed];
  }

  lemma ClosureRuns(prog: seq<Code>, fns: seq<Function>, e: Expr, aim: Aim, base: nat, c: Config) returns (n: nat)
    requires e.Closure? && Here(prog, c, ExprCode(e), aim)
    ensures Arrives(prog, c, n, ExprPath(fns, e, Top(c).slots, c.height, c.bits), AfterExpr(c, ExprCode(e), aim, base))
  {
    hide Run, Step, Holds;
    StartAt(prog, c);
    var f := Top(c);
    var x, did := Instr.MakeClosure(e.captured), [Pushed] + CapturedAll(e.captured, f.slots);
    Does(prog, c, 0, f.ip, c.height, Doing(c, []), x, aim, f.ip + 1, c.height + 1, Doing(c, did));
    n := 1;
    assert [] + did == did;
  }

  lemma BinaryIs(fns: seq<Function>, e: Expr, locals: nat, slots: nat, top: nat, bits: seq<bool>)
    requires e.Binary?
    ensures ExprCode(e) == ExprCode(e.left) + (ExprCode(e.right) + [Operate])
    ensures FitExpr(e, locals, fns) ==> FitExpr(e.left, locals, fns) && FitExpr(e.right, locals, fns)
    ensures var p := ExprPath(fns, e.left, slots, top, bits);
            var q := ExprPath(fns, e.right, slots, top + 1, p.rest);
            ExprPath(fns, e, slots, top, bits) ==
            if p.flow != Finished then p
            else if q.flow != Finished then First(p.did, q)
            else Then(First(p.did, q), [TempPopped, TempPopped, Pushed])
  {
  }

  lemma {:induction false} BinaryRuns(prog: seq<Code>, fns: seq<Function>, e: Expr, locals: nat, aim: Aim, base: nat, c: Config)
    returns (n: nat)
    requires Ready(prog, fns) && e.Binary? && FitExpr(e, locals, fns) && Here(prog, c, ExprCode(e), aim)
    ensures Arrives(prog, c, n, ExprPath(fns, e, Top(c).slots, c.height, c.bits), AfterExpr(c, ExprCode(e), aim, base))
    decreases |c.bits|, e, 0
  {
    hide Ready, Holds, Run, Step, FitExpr, ExprPath, ExprCode, Arrives, Target;
    BinaryIs(fns, e, locals, Top(c).slots, c.height, c.bits);
    var l, r := ExprCode(e.left), ExprCode(e.right);
    var f, g := Top(c), AfterExpr(c, ExprCode(e), aim, base);
    HereBoth(prog, c, l, r + [Operate], aim);
    n := ExprRuns(prog, fns, e.left, locals, aim, base, c);
    var p := ExprPath(fns, e.left, f.slots, c.height, c.bits);
    if p.flow == Finished {
      Reached(prog, c, n, p, AfterExpr(c, l, aim, base));
      var d := At(c, f.ip + |l|, c.height + 1, p);
      HereBoth(prog, d, r, [Operate], aim);
      var k := ExprRuns(prog, fns, e.right, locals, aim, base, d);
      var q := ExprPath(fns, e.right, f.slots, c.height + 1, p.rest);
      Follow(prog, c, n, f.ip + |l|, c.height + 1, p, k, q, AfterExpr(d, r, aim, base));
      n := n + k;
      if q.flow == Finished {
        Reached(prog, c, n, First(p.did, q), AfterExpr(d, r, aim, base));
        Operates(prog, c, n, f.ip + |l| + |r|, c.height + 2, First(p.did, q), aim);
        n := n + 1;
        Reached(prog, c, n, Then(First(p.did, q), [TempPopped, TempPopped, Pushed]), g);
      } else {
        Elsewhere(prog, c, n, First(p.did, q), AfterExpr(d, r, aim, base), g);
      }
    } else {
      Elsewhere(prog, c, n, p, AfterExpr(c, l, aim, base), g);
    }
  }

  lemma Operates(prog: seq<Code>, c: Config, m: nat, ip: int, height: nat, p: Path, aim: Aim)
    requires c.frames != [] && Run(prog, c, m) == At(c, ip, height, p) && height >= 2
    requires Here(prog, At(c, ip, height, p), [Operate], aim)
    ensures Run(prog, c, m + 1) == At(c, ip + 1, height - 1, Then(p, [TempPopped, TempPopped, Pushed]))
  {
    hide Run, Holds;
    Does(prog, c, m, ip, height, p, Operate, aim, ip + 1, height - 1,
         Path(Finished, p.rest, [TempPopped, TempPopped, Pushed]));
  }

  lemma EitherIs(fns: seq<Function>, e: Expr, locals: nat, slots: nat, top: nat, bits: seq<bool>)
    requires e.Either?
    ensures ExprCode(e) == EitherCode(e.isOr, ExprCode(e.left), ExprCode(e.right))
    ensures FitExpr(e, locals, fns) ==> FitExpr(e.left, locals, fns) && FitExpr(e.right, locals, fns)
    ensures var p := ExprPath(fns, e.left, slots, top, bits);
            ExprPath(fns, e, slots, top, bits) ==
            if p.flow != Finished then p
            else if p.rest == [] then p.(flow := Cut)
            else if p.rest[0] == e.isOr then p.(rest := p.rest[1..])
            else First(p.did + [TempPopped], ExprPath(fns, e.right, slots, top, p.rest[1..]))
  {
  }

  lemma EitherHolds(code: Code, at: int, isOr: bool, l: Code, r: Code, aim: Aim)
    requires Holds(code, at, EitherCode(isOr, l, r), aim)
    ensures Holds(code, at, l, aim) && Holds(code, at + |l|, [JumpIfFalse(if isOr then 2 else |r| + 2)], aim)
    ensures isOr ==> Holds(code, at + |l| + 1, [Jump(|r| + 2)], aim)
    ensures var second := at + |l| + if isOr then 2 else 1;
            Holds(code, second, [PopValue(false)], aim) && Holds(code, second + 1, r, aim)
  {
    hide Holds;
    var more := [PopValue(false)] + r;
    if isOr {
      HoldsBoth(code, at, l, [JumpIfFalse(2)] + ([Jump(|r| + 2)] + more), aim);
      HoldsBoth(code, at + |l|, [JumpIfFalse(2)], [Jump(|r| + 2)] + more, aim);
      HoldsBoth(code, at + |l| + 1, [Jump(|r| + 2)], more, aim);
      HoldsBoth(code, at + |l| + 2, [PopValue(false)], r, aim);
    } else {
      HoldsBoth(code, at, l, [JumpIfFalse(|r| + 2)] + more, aim);
      HoldsBoth(code, at + |l|, [JumpIfFalse(|r| + 2)], more, aim);
      HoldsBoth(code, at + |l| + 1, [PopValue(false)], r, aim);
    }
  }

  lemma {:induction false} EitherRuns(prog: seq<Code>, fns: seq<Function>, e: Expr, locals: nat, aim: Aim, base: nat, c: Config)
    returns (n: nat)
    requires Ready(prog, fns) && e.Either? && FitExpr(e, locals, fns) && Here(prog, c, ExprCode(e), aim)
    ensures Arrives(prog, c, n, ExprPath(fns, e, Top(c).slots, c.height, c.bits), AfterExpr(c, ExprCode(e), aim, base))
    decreases |c.bits|, e, 0
  {
    hide Ready, Holds, Run, Step, Arrives, FitExpr, ExprPath, ExprCode;
    EitherIs(fns, e, locals, Top(c).slots, c.height, c.bits);
    var l, r := ExprCode(e.left), ExprCode(e.right);
    var f, g := Top(c), AfterExpr(c, ExprCode(e), aim, base);
    EitherHolds(prog[f.fn], f.ip, e.isOr, l, r, aim);
    n := ExprRuns(prog, fns, e.left, locals, aim, base, c);
    var p, ip := ExprPath(fns, e.left, f.slots, c.height, c.bits), f.ip + |l|;
    if p.flow == Finished {
      Reached(prog, c, n, p, AfterExpr(c, l, aim, base));
      Branches(prog, c, n, ip, c.height + 1, p, if e.isOr then 2 else |r| + 2, aim, g);
      if p.rest != [] {
        var t := p.(rest := p.rest[1..]);
        n := n + 1;
        if p.rest[0] != e.isOr {
          var k := SecondRuns(prog, fns, e.right, locals, aim, base, c, n, if e.isOr then ip + 2 else ip + 1, t, g);
          n := n + k;
        } else {
          if e.isOr { Jumps(prog, c, n, ip + 1, c.height + 1, t, |r| + 2, aim); n := n + 1; }
          Reached(prog, c, n, t, g);
        }
      }
    } else {
      Elsewhere(prog, c, n, p, AfterExpr(c, l, aim, base), g);
    }
  }

  /** The value of the first operand is popped, and the second evaluated. */
  lemma {:induction false} SecondRuns(prog: seq<Code>, fns: seq<Function>, e: Expr, locals: nat, aim: Aim, base: nat, c: Config,
      m: nat, ip: int, p: Path, g: Goal)
    returns (n: nat)
    requires Ready(prog, fns) && FitExpr(e, locals, fns) && c.frames != [] && |p.rest| < |c.bits|
    requires Run(prog, c, m) == At(c, ip, c.height + 1, p) && Here(prog, At(c, ip, c.height + 1, p), [PopValue(false)], aim)
    requires Holds(prog[Top(c).fn], ip + 1, ExprCode(e), aim)
    requires g == Goal(ip + 1 + |ExprCode(e)|, c.height + 1, aim, base)
    ensures Arrives(prog, c, m + n, First(p.did + [TempPopped], ExprPath(fns, e, Top(c).slots, c.height, p.rest)), g)
    decreases |p.rest|, e, 2
  {
    hide Ready, Holds, Run, Step, Arrives, FitExpr, ExprPath, ExprCode;
    Pops(prog, c, m, ip, c.height + 1, p, aim);
    var t := Then(p, [TempPopped]);
    var k := ExprRuns(prog, fns, e, locals, aim, base, At(c, ip + 1, c.height, t));
    Follow(prog, c, m + 1, ip + 1, c.height, t, k, ExprPath(fns, e, Top(c).slots, c.height, p.rest), g);
    n := 1 + k;
  }

  lemma ApplyIs(fns: seq<Function>, e: Expr, locals: nat, slots: nat, top: nat, bits: seq<bool>)
    requires e.Apply?
    ensures ExprCode(e) == ExprCode(e.called) + (ExprsCode(e.args) + [CallFunction(Count(e.args), e.callee)])
    ensures FitExpr(e, locals, fns) ==>
      && FitExpr(e.called, locals, fns) && FitExprs(e.args, locals, fns)
      && e.callee < |fns| && fns[e.callee].arity == Count(e.args)
    ensures var p := ExprPath(fns, e.called, slots, top, bits);
            ExprPath(fns, e, slots, top, bits) ==
            if p.flow == Finished then First(p.did, ArgsPath(fns, e.callee, e.args, slots, top, p.rest)) else p
  {
    hide FitExprs, ArgsPath, ExprsCode;
  }

  lemma {:induction false} ApplyRuns(prog: seq<Code>, fns: seq<Function>, e: Expr, locals: nat, aim: Aim, base: nat, c: Config)
    returns (n: nat)
    requires Ready(prog, fns) && e.Apply? && FitExpr(e, locals, fns) && Here(prog, c, ExprCode(e), aim)
    ensures Arrives(prog, c, n, ExprPath(fns, e, Top(c).slots, c.height, c.bits), AfterExpr(c, ExprCode(e), aim, base))
    decreases |c.bits|, e, 0
  {
    hide Ready, Holds, Run, Step, Arrives, FitExpr, FitExprs, ExprPath, ArgsPath, ExprCode, ExprsCode;
    ApplyIs(fns, e, locals, Top(c).slots, c.height, c.bits);
    var l, r := ExprCode(e.called), ExprsCode(e.args) + [CallFunction(Count(e.args), e.callee)];
    var f := Top(c);
    HereBoth(prog, c, l, r, aim);
    n := ExprRuns(prog, fns, e.called, locals, aim, base, c);
    var p := ExprPath(fns, e.called, f.slots, c.height, c.bits);
    var k := 0;
    if p.flow == Finished {
      k := ArgsRun(prog, fns, e.callee, e.args, locals, aim, base, At(c, f.ip + |l|, c.height + 1, p), c.height);
    }
    n := Both(prog, c, n, p, AfterExpr(c, l, aim, base), k, ArgsPath(fns, e.callee, e.args, f.slots, c.height, p.rest),
              AfterExpr(c, ExprCode(e), aim, base));
  }

  lemma {:induction false} ArgsRun(prog: seq<Code>, fns: seq<Function>, callee: nat, args: Exprs, locals: nat, aim: Aim,
      base: nat, c: Config, top: nat)
    returns (n: nat)
    requires Ready(prog, fns) && callee < |fns| && fns[callee].arity == Count(args) && FitExprs(args, locals, fns)
    requires Here(prog, c, ExprsCode(args) + [CallFunction(Count(args), callee)], aim) && c.height == top + 1
    ensures Arrives(prog, c, n, ArgsPath(fns, callee, args, Top(c).slots, top, c.bits),
                    Goal(Top(c).ip + |ExprsCode(args)| + 1, top + 1, aim, base))
    decreases |c.bits|, args, 2
  {
    hide Ready, Holds, Run, Step, CallPath, ExprsPath, FitExprs, ExprsCode, Count, Exec, Arrives;
    ArgsAre(fns, callee, args, Top(c).slots, top, c.bits);
    var g := Goal(Top(c).ip + |ExprsCode(args)| + 1, top + 1, aim, base);
    var via := Goal(Top(c).ip + |ExprsCode(args)|, top + 1 + Count(args), aim, base);
    var x, ip := CallFunction(Count(args), callee), Top(c).ip + |ExprsCode(args)|;
    HereBoth(prog, c, ExprsCode(args), [x], aim);
    n := ExprsRun(prog, fns, args, locals, aim, base, c);
    var q := ExprsPath(fns, args, Top(c).slots, top + 1, c.bits);
    if q.flow == Finished {
      Reached(prog, c, n, q, via);
      Calls(prog, c, n, ip, top, q, Count(args), callee, aim, g);
      if q.rest != [] {
        var f := Called(At(c, ip, top + 1 + Count(args), q), callee, top);
        var k := CallRuns(prog, fns, callee, f);
        Back(prog, c, n + 1, ip, top + 1 + Count(args), q, f, callee, top, k, CallPath(fns, callee, top, f.bits), g);
        n := n + 1 + k;
      }
    } else {
      Elsewhere(prog, c, n, q, via, g);
    }
  }

  lemma ArgsAre(fns: seq<Function>, callee: nat, args: Exprs, slots: nat, top: nat, bits: seq<bool>)
    requires callee < |fns|
    ensures var q := ExprsPath(fns, args, slots, top + 1, bits);
            ArgsPath(fns, callee, args, slots, top, bits) ==
            if q.flow != Finished then q
            else if q.rest == [] then q.(flow := Cut)
            else First(q.did, CallPath(fns, callee, top, q.rest[1..]))
  {
    hide ExprsPath, CallPath;
  }

  /** The callee lies below its arguments. */
  lemma Calls(prog: seq<Code>, c: Config, m: nat, ip: int, top: nat, q: Path, count: nat, callee: nat, aim: Aim, g: Goal)
    requires c.frames != [] && Run(prog, c, m) == At(c, ip, top + 1 + count, q)
    requires Here(prog, At(c, ip, top + 1 + count, q), [CallFunction(count, callee)], aim)
    ensures if q.rest == [] then Arrives(prog, c, m, q.(flow := Cut), g)
            else Run(prog, c, m + 1) == Called(At(c, ip, top + 1 + count, q), callee, top)
  {
    hide Run, Step, Holds;
    var x := CallFunction(count, callee);
    Advance(prog, c, m, ip, top + 1 + count, q, x, aim);
  }

  /** A call that has returned is left for the function that made it. */
  function Ended(p: Path): Path {
    if p.flow == Finished then p.(flow := Left) else p
  }

  lemma Back(prog: seq<Code>, c: Config, m: nat, ip: int, height: nat, q: Path, f: Config, callee: nat, top: nat, n: nat,
      r: Path, g: Goal)
    requires c.frames != [] && q.rest != [] && f == Called(At(c, ip, height, q), callee, top) && Run(prog, c, m) == f
    requires Arrives(prog, f, n, Ended(r), Goal(0, 0, Nowhere, 0)) && (r.flow == Finished || r.flow == Cut)
    requires g.ip == ip + 1 && g.height == top + 1
    ensures Arrives(prog, c, m + n, First(q.did, r), g)
  {
    hide Run, Step;
    RunAdd(prog, c, m, n);
    var d := At(c, ip, height, q);
    AtAt(c, ip, height, q, r, g);
    assert f.did + r.did == c.did + (q.did + r.did);
    assert f.frames[..|f.frames| - 1] == d.frames[|d.frames| - 1 := Top(d).(ip := ip + 1)];
  }

  lemma ExprsAre(fns: seq<Function>, es: Exprs, locals: nat, slots: nat, top: nat, bits: seq<bool>)
    requires es.MoreExprs?
    ensures ExprsCode(es) == ExprCode(es.head) + ExprsCode(es.tail) && Count(es) == 1 + Count(es.tail)
    ensures FitExprs(es, locals, fns) ==> FitExpr(es.head, locals, fns) && FitExprs(es.tail, locals, fns)
    ensures var p := ExprPath(fns, es.head, slots, top, bits);
            ExprsPath(fns, es, slots, top, bits) ==
            if p.flow == Finished then First(p.did, ExprsPath(fns, es.tail, slots, top + 1, p.rest)) else p
  {
    hide ExprPath, ExprCode, FitExpr;
  }

  lemma NoExprsRun(prog: seq<Code>, fns: seq<Function>, es: Exprs, aim: Aim, base: nat, c: Config)
    requires es.NoExprs? && c.frames != []
    ensures Arrives(prog, c, 0, ExprsPath(fns, es, Top(c).slots, c.height, c.bits),
                    Goal(Top(c).ip + |ExprsCode(es)|, c.height + Count(es), aim, base))
  {
    hide Run, Step;
    StartAt(prog, c);
  }

  lemma {:induction false} ExprsRun(prog: seq<Code>, fns: seq<Function>, es: Exprs, locals: nat, aim: Aim, base: nat, c: Config)
    returns (n: nat)
    requires Ready(prog, fns) && FitExprs(es, locals, fns) && Here(prog, c, ExprsCode(es), aim)
    ensures Arrives(prog, c, n, ExprsPath(fns, es, Top(c).slots, c.height, c.bits),
                    Goal(Top(c).ip + |ExprsCode(es)|, c.height + Count(es), aim, base))
    decreases |c.bits|, es, 1
  {
    hide Ready, Holds, Run, Step, Arrives, FitExprs, ExprsPath, ExprsCode, FitExpr, ExprPath, ExprCode, Count;
    match es
    case NoExprs =>
      n := 0;
      NoExprsRun(prog, fns, es, aim, base, c);
    case MoreExprs(head, tail) =>
      ExprsAre(fns, es, locals, Top(c).slots, c.height, c.bits);
      var l, r := ExprCode(head), ExprsCode(tail);
      HereBoth(prog, c, l, r, aim);
      n := ExprRuns(prog, fns, head, locals, aim, base, c);
      var p := ExprPath(fns, head, Top(c).slots, c.height, c.bits);
      var k := 0;
      if p.flow == Finished { k := ExprsRun(prog, fns, tail, locals, aim, base, At(c, Top(c).ip + |l|, c.height + 1, p)); }
      n := Both(prog, c, n, p, AfterExpr(c, l, aim, base), k, ExprsPath(fns, tail, Top(c).slots, c.height + 1, p.rest),
                Goal(Top(c).ip + |ExprsCode(es)|, c.height + Count(es), aim, base));
  }

  /** A function from its beginning until it returns. */
  lemma {:induction false} CallRuns(prog: seq<Code>, fns: seq<Function>, callee: nat, c: Config) returns (n: nat)
    requires Ready(prog, fns) && callee < |fns| && c.frames != [] && Top(c).fn == callee && Top(c).ip == 0
    requires c.height == Top(c).slots + 1 + fns[callee].arity
    ensures Arrives(prog, c, n, Ended(CallPath(fns, callee, Top(c).slots, c.bits)), Goal(0, 0, Nowhere, 0))
    decreases |c.bits|
  {
    hide Holds, Run, Step, FunctionsFit, ItemsPath, AfterAll;
    var body, marks := fns[callee].body, Unmarked(1 + fns[callee].arity);
    var code := ItemsCode(body, marks, 1);
    Whole(prog[callee]);
    HereBoth(prog, c, code, [PushValue] + [ReturnValue], Nowhere);
    FitsBody(fns, callee);
    n := ItemsRun(prog, fns, body, marks, 1, Nowhere, c);
    var p := ItemsPath(fns, body, marks, 1, Top(c).slots, c.bits);
    if p.flow == Finished {
      var h := Top(c).slots + |AfterAll(marks, body)|;
      HoldsBoth(prog[callee], |code|, [PushValue], [ReturnValue], Nowhere);
      Does(prog, c, n, |code|, h, p, PushValue, Nowhere, |code| + 1, h + 1, Path(Finished, p.rest, [Pushed]));
      Finishes(prog, c, n + 1, |code| + 1, h + 1, Then(p, [Pushed]), Nowhere);
      assert p.did + [Pushed] + [Returned(Top(c).slots)] == p.did + [Pushed, Returned(Top(c).slots)];
      n := n + 2;
    }
  }

  lemma Whole(code: Code)
    ensures Holds(code, 0, code, Nowhere)
  {
  }

  lemma Finishes(prog: seq<Code>, c: Config, m: nat, ip: int, height: nat, p: Path, aim: Aim)
    requires c.frames != [] && Run(prog, c, m) == At(c, ip, height, p) && Here(prog, At(c, ip, height, p), [ReturnValue], aim)
    ensures Run(prog, c, m + 1) == Returning(c, Top(c).slots + 1, Then(p, [Returned(Top(c).slots)]))
  {
    hide Run, Holds, Step;
    Advance(prog, c, m, ip, height, p, ReturnValue, aim);
    var d := At(c, ip, height, p);
    AtAt(c, ip, height, p, Path(Left, p.rest, [Returned(Top(c).slots)]), Goal(0, 0, aim, 0));
  }

  // ---- statements ----

  function AfterCode(c: Config, code: Code, locals: nat, aim: Aim, base: nat): Goal
    requires c.frames != []
  {
    Goal(Top(c).ip + |code|, Top(c).slots + locals, aim, base)
  }

  lemma ItemsAre(fns: seq<Function>, items: Items, marks: Marks, base: nat, looping: bool, slots: nat, bits: seq<bool>)
    requires items.MoreItems?
    ensures var more := AfterItem(marks, items.head);
            && ItemsCode(items, marks, base) == ItemCode(items.head, marks, base) + ItemsCode(items.tail, more, base)
            && AfterAll(marks, items) == AfterAll(more, items.tail)
            && (FitAll(items, |marks|, fns, looping) ==>
                  FitItem(items.head, |marks|, fns, looping) && FitAll(items.tail, |more|, fns, looping))
            && var p := ItemPath(fns, items.head, marks, base, slots, bits);
               ItemsPath(fns, items, marks, base, slots, bits) ==
               if p.flow == Finished then First(p.did, ItemsPath(fns, items.tail, more, base, slots, p.rest)) else p
  {
    hide FitItem, ItemPath, ItemCode, AfterItem;
    ItemMarks(marks, items.head);
  }

  lemma NoItemsRun(prog: seq<Code>, fns: seq<Function>, items: Items, marks: Marks, base: nat, aim: Aim, c: Config)
    requires items.NoItems? && c.frames != [] && c.height == Top(c).slots + |marks|
    ensures Arrives(prog, c, 0, ItemsPath(fns, items, marks, base, Top(c).slots, c.bits),
                    AfterCode(c, ItemsCode(items, marks, base), |AfterAll(marks, items)|, aim, base))
  {
    hide Run, Step;
    StartAt(prog, c);
  }

  lemma {:induction false} ItemsRun(prog: seq<Code>, fns: seq<Function>, items: Items, marks: Marks, base: nat, aim: Aim, c: Config)
    returns (n: nat)
    requires Ready(prog, fns) && FitAll(items, |marks|, fns, aim.Into?) && base <= |marks|
    requires Here(prog, c, ItemsCode(items, marks, base), aim) && c.height == Top(c).slots + |marks|
    ensures Arrives(prog, c, n, ItemsPath(fns, items, marks, base, Top(c).slots, c.bits),
                    AfterCode(c, ItemsCode(items, marks, base), |AfterAll(marks, items)|, aim, base))
    decreases |c.bits|, items, 3
  {
    hide Ready, Holds, Run, Step, Arrives, FitAll, ItemsPath, ItemsCode, AfterAll, FitItem, ItemPath, ItemCode, AfterItem;
    match items
    case NoItems =>
      n := 0;
      NoItemsRun(prog, fns, items, marks, base, aim, c);
    case MoreItems(head, tail) =>
      ItemsAre(fns, items, marks, base, aim.Into?, Top(c).slots, c.bits);
      var more := AfterItem(marks, head);
      var l, r := ItemCode(head, marks, base), ItemsCode(tail, more, base);
      HereBoth(prog, c, l, r, aim);
      n := ItemRuns(prog, fns, head, marks, base, aim, c);
      var p, h := ItemPath(fns, head, marks, base, Top(c).slots, c.bits), Top(c).slots + |more|;
      var k := 0;
      if p.flow == Finished { k := ItemsRun(prog, fns, tail, more, base, aim, At(c, Top(c).ip + |l|, h, p)); }
      n := Both(prog, c, n, p, AfterCode(c, l, |more|, aim, base), k, ItemsPath(fns, tail, more, base, Top(c).slots, p.rest),
                AfterCode(c, ItemsCode(items, marks, base), |AfterAll(marks, items)|, aim, base));
  }

  lemma ItemMarks(marks: Marks, item: Item)
    ensures |AfterItem(marks, item)| == |marks| + if item.Declare? then 1 else 0
  {
  }

  lemma {:induction false} ItemRuns(prog: seq<Code>, fns: seq<Function>, item: Item, marks: Marks, base: nat, aim: Aim, c: Config)
    returns (n: nat)
    requires Ready(prog, fns) && FitItem(item, |marks|, fns, aim.Into?) && base <= |marks|
    requires Here(prog, c, ItemCode(item, marks, base), aim) && c.height == Top(c).slots + |marks|
    ensures Arrives(prog, c, n, ItemPath(fns, item, marks, base, Top(c).slots, c.bits),
                    AfterCode(c, ItemCode(item, marks, base), |AfterItem(marks, item)|, aim, base))
    decreases |c.bits|, item, 3
  {
    hide Ready, Holds, Run, Step, Arrives;
    match item
    case Declare(init) => n := ExprRuns(prog, fns, init, |marks| + 1, aim, base, c);
    case Perform(s) => n := StmtRuns(prog, fns, s, marks, base, aim, c);
  }

  lemma {:induction false} StmtRuns(prog: seq<Code>, fns: seq<Function>, s: Stmt, marks: Marks, base: nat, aim: Aim, c: Config)
    returns (n: nat)
    requires Ready(prog, fns) && Fits(s, |marks|, fns, aim.Into?) && base <= |marks|
    requires Here(prog, c, StmtCode(s, marks, base), aim) && c.height == Top(c).slots + |marks|
    ensures Arrives(prog, c, n, StmtPath(fns, s, marks, base, Top(c).slots, c.bits),
                    AfterCode(c, StmtCode(s, marks, base), |marks|, aim, base))
    decreases |c.bits|, s, 3
  {
    hide Ready, Holds, Here, Run, Step, Arrives;
    match s
    case Evaluate(_) => n := EvaluateRuns(prog, fns, s, marks, base, aim, c);
    case Block(_) => n := BlockRuns(prog, fns, s, marks, base, aim, c);
    case If(_, _, _) => n := IfRuns(prog, fns, s, marks, base, aim, c);
    case Loop(_, _, _) => n := LoopRuns(prog, fns, s, marks, base, aim, c);
    case Break => n := LeaveRuns(prog, fns, s, marks, base, aim, c);
    case Continue => n := LeaveRuns(prog, fns, s, marks, base, aim, c);
    case Return(_) => n := ReturnRuns(prog, fns, s, marks, base, aim, c);
  }

  lemma {:induction false} EvaluateRuns(prog: seq<Code>, fns: seq<Function>, s: Stmt, marks: Marks, base: nat, aim: Aim, c: Config)
    returns (n: nat)
    requires Ready(prog, fns) && s.Evaluate? && Fits(s, |marks|, fns, aim.Into?) && base <= |marks|
    requires Here(prog, c, StmtCode(s, marks, base), aim) && c.height == Top(c).slots + |marks|
    ensures Arrives(prog, c, n, StmtPath(fns, s, marks, base, Top(c).slots, c.bits),
                    AfterCode(c, StmtCode(s, marks, base), |marks|, aim, base))
    decreases |c.bits|, s, 2
  {
    hide Ready, Holds, Run, Step, FitExpr, ExprPath;
    HereBoth(prog, c, ExprCode(s.e), [PopValue(false)], aim);
    n := ExprRuns(prog, fns, s.e, |marks|, aim, base, c);
    var p := ExprPath(fns, s.e, Top(c).slots, c.height, c.bits);
    if p.flow == Finished {
      Pops(prog, c, n, Top(c).ip + |ExprCode(s.e)|, c.height + 1, p, aim);
      n := n + 1;
    }
  }

  lemma {:induction false} ReturnRuns(prog: seq<Code>, fns: seq<Function>, s: Stmt, marks: Marks, base: nat, aim: Aim, c: Config)
    returns (n: nat)
    requires Ready(prog, fns) && s.Return? && Fits(s, |marks|, fns, aim.Into?) && base <= |marks|
    requires Here(prog, c, StmtCode(s, marks, base), aim) && c.height == Top(c).slots + |marks|
    ensures Arrives(prog, c, n, StmtPath(fns, s, marks, base, Top(c).slots, c.bits),
                    AfterCode(c, StmtCode(s, marks, base), |marks|, aim, base))
    decreases |c.bits|, s, 2
  {
    hide Ready, Holds, Run, Step, FitExpr, ExprPath;
    HereBoth(prog, c, ExprCode(s.e), [ReturnValue], aim);
    n := ExprRuns(prog, fns, s.e, |marks|, aim, base, c);
    var p := ExprPath(fns, s.e, Top(c).slots, c.height, c.bits);
    if p.flow == Finished {
      Finishes(prog, c, n, Top(c).ip + |ExprCode(s.e)|, c.height + 1, p, aim);
      n := n + 1;
    }
  }

  /** One instruction for each variable that goes. */
  lemma {:induction false} DiscardRuns(prog: seq<Code>, c: Config, m: nat, ip: int, height: nat, p: Path, marks: Marks, kept: nat,
      aim: Aim)
    requires c.frames != [] && Run(prog, c, m) == At(c, ip, height, p) && kept <= |marks| && |marks| - kept <= height
    requires Here(prog, At(c, ip, height, p), DiscardCode(marks, kept), aim)
    ensures var k := |marks| - kept;
            && |DiscardCode(marks, kept)| == k
            && Run(prog, c, m + k) == At(c, ip + k, height - k, Then(p, Discards(marks, kept)))
    decreases |marks|
  {
    hide Run, Step, Holds;
    if kept < |marks| {
      var last, front := marks[|marks| - 1], marks[..|marks| - 1];
      var x, did := if last then CloseUpvalue else PopValue(true), [if last then Closed else VariablePopped];
      HoldsBoth(prog[Top(c).fn], ip, [x], DiscardCode(front, kept), aim);
      Does(prog, c, m, ip, height, p, x, aim, ip + 1, height - 1, Path(Finished, p.rest, did));
      DiscardRuns(prog, c, m + 1, ip + 1, height - 1, Then(p, did), front, kept, aim);
      assert p.did + did + Discards(front, kept) == p.did + (did + Discards(front, kept));
    } else {
      assert p.did + [] == p.did;
    }
  }

  lemma {:induction false} BlockRuns(prog: seq<Code>, fns: seq<Function>, s: Stmt, marks: Marks, base: nat, aim: Aim, c: Config)
    returns (n: nat)
    requires Ready(prog, fns) && s.Block? && Fits(s, |marks|, fns, aim.Into?) && base <= |marks|
    requires Here(prog, c, StmtCode(s, marks, base), aim) && c.height == Top(c).slots + |marks|
    ensures Arrives(prog, c, n, StmtPath(fns, s, marks, base, Top(c).slots, c.bits),
                    AfterCode(c, StmtCode(s, marks, base), |marks|, aim, base))
    decreases |c.bits|, s, 2
  {
    hide Ready, Holds, Run, Step, FitAll, ItemsPath, ItemsCode, DiscardCode, AfterAll;
    var code, end := ItemsCode(s.items, marks, base), AfterAll(marks, s.items);
    HereBoth(prog, c, code, DiscardCode(end, |marks|), aim);
    n := ItemsRun(prog, fns, s.items, marks, base, aim, c);
    var p := ItemsPath(fns, s.items, marks, base, Top(c).slots, c.bits);
    if p.flow == Finished {
      DiscardRuns(prog, c, n, Top(c).ip + |code|, Top(c).slots + |end|, p, end, |marks|, aim);
      n := n + |end| - |marks|;
    }
  }

  /** `break` and `continue`. */
  lemma {:induction false} LeaveRuns(prog: seq<Code>, fns: seq<Function>, s: Stmt, marks: Marks, base: nat, aim: Aim, c: Config)
    returns (n: nat)
    requires (s.Break? || s.Continue?) && Fits(s, |marks|, fns, aim.Into?) && base <= |marks|
    requires Here(prog, c, StmtCode(s, marks, base), aim) && c.height == Top(c).slots + |marks|
    ensures Arrives(prog, c, n, StmtPath(fns, s, marks, base, Top(c).slots, c.bits),
                    AfterCode(c, StmtCode(s, marks, base), |marks|, aim, base))
    decreases |c.bits|, s, 2
  {
    hide Holds, Run, Step, DiscardCode;
    var code, x := DiscardCode(marks, base), if s.Break? then BreakMark else ContinueMark;
    HereBoth(prog, c, code, [x], aim);
    StartAt(prog, c);
    DiscardRuns(prog, c, 0, Top(c).ip, c.height, Doing(c, []), marks, base, aim);
    n := |marks| - base;
    var p := Doing(c, Discards(marks, base));
    assert [] + Discards(marks, base) == Discards(marks, base) == Discards(marks, base) + [];
    var next := if s.Break? then aim.exit else aim.again;
    Does(prog, c, n, Top(c).ip + n, c.height - n, p, x, aim, next, c.height - n, Doing(c, []));
    n := n + 1;
  }

  lemma IfHolds(code: Code, at: int, cond: Code, yes: Code, no: Code, aim: Aim)
    requires Holds(code, at, IfCode(cond, yes, no), aim)
    ensures Holds(code, at, cond, aim) && Holds(code, at + |cond|, [JumpIfFalse(|yes| + 3)], aim)
    ensures var first := at + |cond| + 1;
            && Holds(code, first, [PopValue(false)], aim) && Holds(code, first + 1, yes, aim)
            && Holds(code, first + 1 + |yes|, [Jump(|no| + 2)], aim)
    ensures var second := at + |cond| + |yes| + 3;
            Holds(code, second, [PopValue(false)], aim) && Holds(code, second + 1, no, aim)
  {
    hide Holds;
    var last := [PopValue(false)] + no;
    var end := [Jump(|no| + 2)] + last;
    var first := [PopValue(false)] + (yes + end);
    HoldsBoth(code, at, cond, [JumpIfFalse(|yes| + 3)] + first, aim);
    HoldsBoth(code, at + |cond|, [JumpIfFalse(|yes| + 3)], first, aim);
    HoldsBoth(code, at + |cond| + 1, [PopValue(false)], yes + end, aim);
    HoldsBoth(code, at + |cond| + 2, yes, end, aim);
    HoldsBoth(code, at + |cond| + 2 + |yes|, [Jump(|no| + 2)], last, aim);
    HoldsBoth(code, at + |cond| + 3 + |yes|, [PopValue(false)], no, aim);
  }

  lemma IfIs(fns: seq<Function>, s: Stmt, marks: Marks, base: nat, looping: bool, slots: nat, bits: seq<bool>)
    requires s.If?
    ensures var m := Marked(marks, Captures(s.cond));
            && StmtCode(s, marks, base)
               == IfCode(ExprCode(s.cond), StmtCode(s.yes, m, base), StmtCode(s.no, After(m, s.yes), base))
            && (Fits(s, |marks|, fns, looping) ==>
                  FitExpr(s.cond, |marks|, fns) && Fits(s.yes, |m|, fns, looping) && Fits(s.no, |m|, fns, looping))
            && var p := ExprPath(fns, s.cond, slots, slots + |marks|, bits);
               StmtPath(fns, s, marks, base, slots, bits) ==
               if p.flow != Finished then p
               else if p.rest == [] then p.(flow := Cut)
               else if p.rest[0] then First(p.did + [TempPopped], StmtPath(fns, s.yes, m, base, slots, p.rest[1..]))
               else First(p.did + [TempPopped], StmtPath(fns, s.no, After(m, s.yes), base, slots, p.rest[1..]))
  {
    hide ExprPath, ExprCode, FitExpr, Captures;
  }

  lemma {:induction false} IfRuns(prog: seq<Code>, fns: seq<Function>, s: Stmt, marks: Marks, base: nat, aim: Aim, c: Config)
    returns (n: nat)
    requires Ready(prog, fns) && s.If? && Fits(s, |marks|, fns, aim.Into?) && base <= |marks|
    requires Here(prog, c, StmtCode(s, marks, base), aim) && c.height == Top(c).slots + |marks|
    ensures Arrives(prog, c, n, StmtPath(fns, s, marks, base, Top(c).slots, c.bits),
                    AfterCode(c, StmtCode(s, marks, base), |marks|, aim, base))
    decreases |c.bits|, s, 2
  {
    hide Ready, Holds, Run, Step, Arrives, FitExpr, Fits, ExprPath, StmtPath, ExprCode, StmtCode, Captures, Marked, After;
    IfIs(fns, s, marks, base, aim.Into?, Top(c).slots, c.bits);
    var m := Marked(marks, Captures(s.cond));
    var cond, yes, no := ExprCode(s.cond), StmtCode(s.yes, m, base), StmtCode(s.no, After(m, s.yes), base);
    var f, g := Top(c), AfterCode(c, StmtCode(s, marks, base), |marks|, aim, base);
    var r := StmtPath(fns, s, marks, base, f.slots, c.bits);
    IfHolds(prog[f.fn], f.ip, cond, yes, no, aim);
    n := ExprRuns(prog, fns, s.cond, |marks|, aim, base, c);
    var p, ip := ExprPath(fns, s.cond, f.slots, c.height, c.bits), f.ip + |cond|;
    if p.flow == Finished {
      Reached(prog, c, n, p, AfterExpr(c, cond, aim, base));
      Branches(prog, c, n, ip, c.height + 1, p, |yes| + 3, aim, g);
      if p.rest != [] {
        var t := p.(rest := p.rest[1..]);
        var k;
        if p.rest[0] {
          k := WayRuns(prog, fns, s.yes, m, base, aim, c, n + 1, ip + 1, t, |no| + 2, g);
        } else {
          k := WayRuns(prog, fns, s.no, After(m, s.yes), base, aim, c, n + 1, ip + |yes| + 3, t, 0, g);
        }
        n := n + 1 + k;
        assert Arrives(prog, c, n, r, g);
      } else {
        assert r == p.(flow := Cut);
      }
    } else {
      Elsewhere(prog, c, n, p, AfterExpr(c, cond, aim, base), g);
      assert r == p;
    }
  }

  /** One way, behind a condition that is popped, with a jump at its end if there is more behind it. */
  lemma {:induction false} WayRuns(prog: seq<Code>, fns: seq<Function>, s: Stmt, marks: Marks, base: nat, aim: Aim, c: Config,
      m: nat, ip: int, p: Path, jump: nat, g: Goal)
    returns (n: nat)
    requires Ready(prog, fns) && Fits(s, |marks|, fns, aim.Into?) && base <= |marks| && c.frames != [] && |p.rest| < |c.bits|
    requires c.height == Top(c).slots + |marks| && Run(prog, c, m) == At(c, ip, c.height + 1, p)
    requires Here(prog, At(c, ip, c.height + 1, p), [PopValue(false)], aim)
    requires var code := StmtCode(s, marks, base);
             && Holds(prog[Top(c).fn], ip + 1, code, aim)
             && (jump > 0 ==> Holds(prog[Top(c).fn], ip + 1 + |code|, [Jump(jump)], aim))
             && g == Goal(ip + 1 + |code| + jump, c.height, aim, base)
    ensures Arrives(prog, c, m + n, First(p.did + [TempPopped], StmtPath(fns, s, marks, base, Top(c).slots, p.rest)), g)
    decreases |p.rest|, s, 4
  {
    hide Ready, Holds, Run, Step, Arrives, Fits, StmtPath, StmtCode;
    Pops(prog, c, m, ip, c.height + 1, p, aim);
    var t, q := Then(p, [TempPopped]), StmtPath(fns, s, marks, base, Top(c).slots, p.rest);
    var d := At(c, ip + 1, c.height, t);
    var via := AfterCode(d, StmtCode(s, marks, base), |marks|, aim, base);
    var k := StmtRuns(prog, fns, s, marks, base, aim, d);
    Follow(prog, c, m + 1, ip + 1, c.height, t, k, q, via);
    n := 1 + k;
    if q.flow == Finished {
      Reached(prog, c, m + n, First(t.did, q), via);
      if jump > 0 { Jumps(prog, c, m + n, via.ip, c.height, First(t.did, q), jump, aim); n := n + 1; }
      Reached(prog, c, m + n, First(t.did, q), g);
    } else {
      Elsewhere(prog, c, m + n, First(t.did, q), via, g);
    }
  }

  // ---- loops ----

  lemma LoopHolds(code: Code, at: int, test: Code, step: Code, body: Code, aim: Aim)
    requires Holds(code, at, LoopCode(test, step, body), aim)
    ensures Holds(code, at, test, aim) && Holds(code, at + |test|, [JumpIfFalse(|step| + |body| + 6)], aim)
    ensures var first := at + |test| + 1;
            && Holds(code, first, [PopValue(false)], aim) && Holds(code, first + 1, [Jump(|step| + 3)], aim)
            && Holds(code, first + 2, step, aim) && Holds(code, first + 2 + |step|, [PopValue(false)], aim)
            && Holds(code, first + 3 + |step|, [Jump(-(|test| + |step| + 4))], aim)
    ensures var inner := at + |test| + |step| + 5;
            && Holds(code, inner, body, Into(inner + |body| + 2, at + |test| + 3))
            && Holds(code, inner + |body|, [Jump(-(|step| + |body| + 2))], aim)
            && Holds(code, inner + |body| + 1, [PopValue(false)], aim)
  {
    hide Holds, Patched;
    var t, s, b, patched := |test|, |step|, |body|, PatchedBody(test, step, body);
    var end := [Jump(-(s + b + 2))] + [PopValue(false)];
    var back := [PopValue(false)] + ([Jump(-(t + s + 4))] + (patched + end));
    var over := [PopValue(false)] + ([Jump(s + 3)] + (step + back));
    HoldsBoth(code, at, test, [JumpIfFalse(s + b + 6)] + over, aim);
    HoldsBoth(code, at + t, [JumpIfFalse(s + b + 6)], over, aim);
    HoldsBoth(code, at + t + 1, [PopValue(false)], [Jump(s + 3)] + (step + back), aim);
    HoldsBoth(code, at + t + 2, [Jump(s + 3)], step + back, aim);
    HoldsBoth(code, at + t + 3, step, back, aim);
    HoldsBoth(code, at + t + 3 + s, [PopValue(false)], [Jump(-(t + s + 4))] + (patched + end), aim);
    HoldsBoth(code, at + t + 4 + s, [Jump(-(t + s + 4))], patched + end, aim);
    HoldsBoth(code, at + t + 5 + s, patched, end, aim);
    HoldsBoth(code, at + t + 5 + s + b, [Jump(-(s + b + 2))], [PopValue(false)], aim);
    HoldsPatched(code, at + t + 5 + s, body, t + s + 5, Into(t + s + b + 7, t + 3), aim);
  }

  lemma LoopIs(fns: seq<Function>, s: Stmt, marks: Marks, base: nat, looping: bool, slots: nat, bits: seq<bool>)
    requires s.Loop?
    ensures StmtCode(s, marks, base)
            == LoopCode(ExprCode(s.test), ExprCode(s.step), StmtCode(s.body, Inside(marks, s), |marks|))
    ensures Fits(s, |marks|, fns, looping) ==>
      FitExpr(s.test, |marks|, fns) && FitExpr(s.step, |marks|, fns) && Fits(s.body, |marks|, fns, true)
    ensures StmtPath(fns, s, marks, base, slots, bits) == LoopPath(fns, s, marks, slots, bits)
    ensures var p := RoundPath(fns, s, marks, slots, bits);
            LoopPath(fns, s, marks, slots, bits)
            == if p.flow == Continued then First(p.did, LoopPath(fns, s, marks, slots, p.rest)) else p
  {
    hide RoundPath, ExprCode, FitExpr, Inside;
  }

  /** What follows the body. */
  function StepPath(fns: seq<Function>, s: Stmt, slots: nat, top: nat, q: Path): Path
    requires s.Loop?
  {
    var r := First(q.did, ExprPath(fns, s.step, slots, top, q.rest));
    if r.flow == Finished then Then(r.(flow := Continued), [TempPopped]) else r
  }

  function RestPath(fns: seq<Function>, s: Stmt, slots: nat, top: nat, q: Path): Path
    requires s.Loop?
  {
    match q.flow
    case Broke => q.(flow := Finished)
    case Left => q
    case Cut => q
    case _ => StepPath(fns, s, slots, top, q)
  }

  lemma RoundIs(fns: seq<Function>, s: Stmt, marks: Marks, slots: nat, bits: seq<bool>)
    requires s.Loop?
    ensures var p := ExprPath(fns, s.test, slots, slots + |marks|, bits);
            RoundPath(fns, s, marks, slots, bits) ==
            if p.flow != Finished then p
            else if p.rest == [] then p.(flow := Cut)
            else
              var t := Then(p.(rest := p.rest[1..]), [TempPopped]);
              if !p.rest[0] then t
              else RestPath(fns, s, slots, slots + |marks|,
                            First(t.did, StmtPath(fns, s.body, Inside(marks, s), |marks|, slots, t.rest)))
  {
    hide ExprPath, Inside;
  }

  /** Where a round ends, or begins again. */
  function RoundGoal(c: Config, code: Code, locals: nat): Goal
    requires c.frames != []
  {
    Goal(Top(c).ip + |code|, Top(c).slots + locals, Into(0, Top(c).ip), locals)
  }

  lemma {:induction false} LoopRuns(prog: seq<Code>, fns: seq<Function>, s: Stmt, marks: Marks, base: nat, aim: Aim, c: Config)
    returns (n: nat)
    requires Ready(prog, fns) && s.Loop? && Fits(s, |marks|, fns, aim.Into?)
    requires Here(prog, c, StmtCode(s, marks, base), aim) && c.height == Top(c).slots + |marks|
    ensures Arrives(prog, c, n, StmtPath(fns, s, marks, base, Top(c).slots, c.bits),
                    AfterCode(c, StmtCode(s, marks, base), |marks|, aim, base))
    decreases |c.bits|, s, 2
  {
    hide Ready, Holds, Run, Step, Arrives, Fits, StmtPath, StmtCode, LoopPath, RoundPath, FitExpr, ExprCode, Inside;
    LoopIs(fns, s, marks, base, aim.Into?, Top(c).slots, c.bits);
    var code, p := StmtCode(s, marks, base), RoundPath(fns, s, marks, Top(c).slots, c.bits);
    var via, g := RoundGoal(c, code, |marks|), AfterCode(c, code, |marks|, aim, base);
    n := RoundRuns(prog, fns, s, marks, base, aim, c);
    if p.flow == Continued {
      ReachedLoop(prog, c, n, p, via);
      var d := At(c, Top(c).ip, c.height, p);
      var k := LoopRuns(prog, fns, s, marks, base, aim, d);
      LoopIs(fns, s, marks, base, aim.Into?, Top(c).slots, p.rest);
      Follow(prog, c, n, Top(c).ip, c.height, p, k, LoopPath(fns, s, marks, Top(c).slots, p.rest), g);
      n := n + k;
    } else if p.flow == Finished {
      Reached(prog, c, n, p, via);
      Reached(prog, c, n, p, g);
    } else {
      Elsewhere(prog, c, n, p, via, g);
    }
  }

  /** The test, and if it holds the body and the step, and back to the test. */
  lemma {:induction false} RoundRuns(prog: seq<Code>, fns: seq<Function>, s: Stmt, marks: Marks, base: nat, aim: Aim, c: Config)
    returns (n: nat)
    requires Ready(prog, fns) && s.Loop? && Fits(s, |marks|, fns, aim.Into?)
    requires Here(prog, c, StmtCode(s, marks, base), aim) && c.height == Top(c).slots + |marks|
    ensures Arrives(prog, c, n, RoundPath(fns, s, marks, Top(c).slots, c.bits), RoundGoal(c, StmtCode(s, marks, base), |marks|))
    decreases |c.bits|, s, 1
  {
    hide Ready, Holds, Run, Step, Arrives, Fits, StmtPath, StmtCode, RoundPath, RestPath, FitExpr, ExprCode, ExprPath, Inside;
    LoopIs(fns, s, marks, base, aim.Into?, Top(c).slots, c.bits);
    RoundIs(fns, s, marks, Top(c).slots, c.bits);
    var f, g := Top(c), RoundGoal(c, StmtCode(s, marks, base), |marks|);
    var test, step, body := ExprCode(s.test), ExprCode(s.step), StmtCode(s.body, Inside(marks, s), |marks|);
    var r := RoundPath(fns, s, marks, f.slots, c.bits);
    LoopHolds(prog[f.fn], f.ip, test, step, body, aim);
    n := ExprRuns(prog, fns, s.test, |marks|, aim, base, c);
    var p, ip := ExprPath(fns, s.test, f.slots, c.height, c.bits), f.ip + |test|;
    if p.flow == Finished {
      Reached(prog, c, n, p, AfterExpr(c, test, aim, base));
      Branches(prog, c, n, ip, c.height + 1, p, |step| + |body| + 6, aim, g);
      if p.rest != [] {
        var t := p.(rest := p.rest[1..]);
        var u := Then(t, [TempPopped]);
        Pops(prog, c, n + 1, if p.rest[0] then ip + 1 else ip + |step| + |body| + 6, c.height + 1, t, aim);
        n := n + 2;
        if p.rest[0] {
          Jumps(prog, c, n, ip + 2, c.height, u, |step| + 3, aim);
          var k := RestRuns(prog, fns, s, marks, base, aim, c, n + 1, u);
          n := n + 1 + k;
          assert Arrives(prog, c, n, r, g);
        } else {
          Reached(prog, c, n, u, g);
          assert r == u;
        }
      } else {
        assert r == p.(flow := Cut);
      }
    } else {
      Elsewhere(prog, c, n, p, AfterExpr(c, test, aim, base), g);
      assert r == p;
    }
  }

  /** From the beginning of the body. */
  lemma {:induction false} RestRuns(prog: seq<Code>, fns: seq<Function>, s: Stmt, marks: Marks, base: nat, aim: Aim, c: Config,
      m: nat, p: Path)
    returns (n: nat)
    requires Ready(prog, fns) && s.Loop? && Fits(s, |marks|, fns, aim.Into?) && |p.rest| < |c.bits|
    requires Here(prog, c, StmtCode(s, marks, base), aim) && c.height == Top(c).slots + |marks|
    requires Run(prog, c, m) == At(c, Top(c).ip + |ExprCode(s.test)| + |ExprCode(s.step)| + 5, c.height, p)
    ensures var q := First(p.did, StmtPath(fns, s.body, Inside(marks, s), |marks|, Top(c).slots, p.rest));
            Arrives(prog, c, m + n, RestPath(fns, s, Top(c).slots, c.height, q), RoundGoal(c, StmtCode(s, marks, base), |marks|))
    decreases |p.rest|, s, 0
  {
    hide Ready, Holds, Run, Step, Arrives, Fits, StmtPath, StmtCode, StepPath, FitExpr, ExprCode, ExprPath, Inside;
    LoopIs(fns, s, marks, base, aim.Into?, Top(c).slots, c.bits);
    var f, g := Top(c), RoundGoal(c, StmtCode(s, marks, base), |marks|);
    var inside := Inside(marks, s);
    var test, step, body := ExprCode(s.test), ExprCode(s.step), StmtCode(s.body, inside, |marks|);
    LoopHolds(prog[f.fn], f.ip, test, step, body, aim);
    var ip := f.ip + |test| + |step| + 5;
    var inner := Into(ip + |body| + 2, f.ip + |test| + 3);
    var d := At(c, ip, c.height, p);
    InsideSize(marks, s);
    n := StmtRuns(prog, fns, s.body, inside, |marks|, inner, d);
    var q, via := First(p.did, StmtPath(fns, s.body, inside, |marks|, f.slots, p.rest)), AfterCode(d, body, |marks|, inner, |marks|);
    Follow(prog, c, m, ip, c.height, p, n, StmtPath(fns, s.body, inside, |marks|, f.slots, p.rest), via);
    if q.flow == Broke {
      ReachedLoop(prog, c, m + n, q, via);
      Reached(prog, c, m + n, q.(flow := Finished), g);
    } else if q.flow == Left || q.flow == Cut {
      Elsewhere(prog, c, m + n, q, via, g);
    } else {
      if q.flow == Finished {
        Reached(prog, c, m + n, q, via);
        Jumps(prog, c, m + n, via.ip, c.height, q, -(|step| + |body| + 2), aim);
        n := n + 1;
      } else {
        ReachedLoop(prog, c, m + n, q, via);
      }
      var k := StepRuns(prog, fns, s, marks, base, aim, c, m + n, q);
      n := n + k;
    }
  }

  lemma InsideSize(marks: Marks, s: Stmt)
    requires s.Loop?
    ensures |Inside(marks, s)| == |marks|
  {
  }

  lemma {:induction false} StepRuns(prog: seq<Code>, fns: seq<Function>, s: Stmt, marks: Marks, base: nat, aim: Aim, c: Config,
      m: nat, q: Path)
    returns (n: nat)
    requires Ready(prog, fns) && s.Loop? && Fits(s, |marks|, fns, aim.Into?) && |q.rest| < |c.bits|
    requires Here(prog, c, StmtCode(s, marks, base), aim) && c.height == Top(c).slots + |marks|
    requires Run(prog, c, m) == At(c, Top(c).ip + |ExprCode(s.test)| + 3, c.height, q)
    ensures Arrives(prog, c, m + n, StepPath(fns, s, Top(c).slots, c.height, q), RoundGoal(c, StmtCode(s, marks, base), |marks|))
    decreases |q.rest|, s.step, 4
  {
    hide Ready, Holds, Run, Step, Arrives, Fits, StmtPath, StmtCode, FitExpr, ExprCode, ExprPath, Inside;
    LoopIs(fns, s, marks, base, aim.Into?, Top(c).slots, c.bits);
    var f, g := Top(c), RoundGoal(c, StmtCode(s, marks, base), |marks|);
    var test, step := ExprCode(s.test), ExprCode(s.step);
    LoopHolds(prog[f.fn], f.ip, test, step, StmtCode(s.body, Inside(marks, s), |marks|), aim);
    var ip := f.ip + |test| + 3;
    var d := At(c, ip, c.height, q);
    var r0, via := ExprPath(fns, s.step, f.slots, c.height, q.rest), AfterExpr(d, step, aim, base);
    n := ExprRuns(prog, fns, s.step, |marks|, aim, base, d);
    Follow(prog, c, m, ip, c.height, q, n, r0, via);
    var r := First(q.did, r0);
    if r.flow == Finished {
      Reached(prog, c, m + n, r, via);
      Pops(prog, c, m + n, ip + |step|, c.height + 1, r, aim);
      var u := Then(r.(flow := Continued), [TempPopped]);
      Jumps(prog, c, m + n + 1, ip + |step| + 1, c.height, u, -(|test| + |step| + 4), aim);
      ReachedLoop(prog, c, m + n + 2, u, g);
      n := n + 2;
    } else {
      Elsewhere(prog, c, m + n, r, via, g);
    }
  }

  // ---- programs ----

  /** Function number zero and its arguments are on the stack, and it is called. */
  function Start(fns: seq<Function>, bits: seq<bool>): Config
    requires fns != []
  {
    Config([Frame(0, 0, 0)], 1 + fns[0].arity, bits, seq(1 + fns[0].arity, i => Pushed))
  }

  /** The machine runs the code of a program to an end, or until it wants an outcome that is not there, and has then done
      exactly what is on the path. */
  lemma ProgramRuns(fns: seq<Function>, bits: seq<bool>) returns (n: nat)
    requires FunctionsFit(fns) && fns != []
    ensures var p := ProgramPath(fns, bits);
            var r := Run(Program(fns), Start(fns, bits), n);
            && r.did == p.did && r.bits == p.rest && Step(Program(fns), r).None?
            && (p.flow == Finished || (p.flow == Cut && p.rest == []))
            && (p.flow == Finished <==> r.frames == [])
  {
    hide Run, FunctionsFit, CallPath;
    var c := Start(fns, bits);
    n := CallRuns(Program(fns), fns, 0, c);
    assert c.frames[..0] == [];
  }
}
