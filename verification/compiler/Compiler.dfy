/** The single-pass compiler: every method appends to the code of the current function, patches
    jumps it emitted before, and keeps track of the variables in scope. The first compile error stops
    it, because a function with an error is thrown away whole. */
module Compiler {
  import opened Options
  import opened Values
  import opened Language
  import opened Bytecode
  import opened Layout
  import opened Limits
  import opened Patching
  import opened CodeGrowth
  import opened StatementGrowth
  import Acceptance

  /** The loop being compiled; `end` is the operand of its exit jump, or -1 if it has none. */
  datatype LoopFrame = LoopFrame(start: nat, body: nat, end: int, scopeDepth: nat)

  /** Slots are one more than positions among the names, because slot zero has none. */
  lemma SlotIsResolution(locals: seq<Local>, name: Name)
    requires |locals| > 0 && locals[0].name == ""
    ensures Slot(locals, name) == if Resolve(NamesOf(locals), name) < 0 then -1 else Resolve(NamesOf(locals), name) + 1
  {
    var names := NamesOf(locals);
    var i := Resolve(names, name);
    assert 0 <= i ==> locals[i + 1].name == name;
    forall j | i + 1 < j < |locals|
      ensures locals[j].name != name
    {
      assert names[j - 1] == locals[j].name;
    }
  }

  lemma CheckAssign(name: Name, rhs: Expr, locals: seq<Local>, pool: Pool)
    ensures CheckExpr(Assign(name, rhs), locals, pool) ==
            match CheckWrite(name, locals, pool)
            case None => None
            case Some(pool1) => CheckExpr(rhs, locals, pool1)
  {
  }

  lemma CheckTernary(x: Expr, yes: Expr, no: Expr, locals: seq<Local>, pool: Pool)
    ensures CheckExpr(Ternary(x, yes, no), locals, pool) ==
            match CheckExpr(x, locals, pool)
            case None => None
            case Some(pool1) =>
              match CheckExpr(yes, locals, pool1)
              case None => None
              case Some(pool2) =>
                if 4 + ExprLen(yes) > MAX_JUMP || 1 + ExprLen(no) > MAX_JUMP then None else CheckExpr(no, locals, pool2)
  {
  }

  // ---- what the limits say, one construct at a time ----

  lemma CheckEvaluate(e: Expr, locals: seq<Local>, depth: nat, t: Target, p: nat, pool: Pool)
    requires |locals| > 0
    ensures CheckStmt(Evaluate(e), locals, depth, t, p, pool) == CheckExpr(e, locals, pool)
  {
  }

  lemma CheckIf(x: Expr, yes: Stmt, no: Option<Stmt>, locals: seq<Local>, depth: nat, t: Target, p: nat, q: nat, pool: Pool)
    requires |locals| > 0 && q == p + ExprLen(x)
    ensures CheckStmt(If(x, yes, no), locals, depth, t, p, pool) ==
            match CheckExpr(x, locals, pool)
            case None => None
            case Some(pool1) =>
              var a := StmtLen(yes, Extra(NamesOf(locals), t));
              match CheckStmt(yes, locals, depth, t, q + 4, pool1)
              case None => None
              case Some(pool2) =>
                if a + 4 > MAX_JUMP then None
                else if no.None? then Some(pool2)
                else if 1 + StmtLen(no.value, Extra(NamesOf(locals), t)) > MAX_JUMP then None
                else CheckStmt(no.value, locals, depth, t, q + a + 8, pool2)
  {
    hide CheckExpr, StmtLen, ExprLen, NamesOf, Extra;
  }

  lemma CheckBlock(items: Items, locals: seq<Local>, depth: nat, t: Target, p: nat, pool: Pool)
    requires |locals| > 0
    ensures CheckStmt(Block(items), locals, depth, t, p, pool) == CheckItems(items, locals, depth + 1, t, p, pool)
  {
  }

  lemma CheckNoItems(locals: seq<Local>, depth: nat, t: Target, p: nat, pool: Pool)
    requires |locals| > 0
    ensures CheckItems(NoItems, locals, depth, t, p, pool) == Some(pool) && ScopeAll(locals, NoItems, depth) == locals
  {
  }

  lemma CheckMoreItems(head: Item, tail: Items, locals: seq<Local>, depth: nat, t: Target, p: nat, pool: Pool)
    requires |locals| > 0
    ensures CheckItems(MoreItems(head, tail), locals, depth, t, p, pool) ==
            match CheckItem(head, locals, depth, t, p, pool)
            case None => None
            case Some(pool1) =>
              CheckItems(tail, Scope(locals, head, depth), depth, t, p + ItemLen(head, depth == 0, Extra(NamesOf(locals), t)), pool1)
    ensures ScopeAll(locals, MoreItems(head, tail), depth) == ScopeAll(Scope(locals, head, depth), tail, depth)
    ensures NamesOf(Scope(locals, head, depth)) == Extend(NamesOf(locals), head, depth == 0)
  {
  }

  lemma NoItemsLaidOut(c: Chunk, global: bool, names: seq<string>, t: Target)
    ensures Grows(c, c, ItemsLen(NoItems, global, Extra(names, t))) && ItemsAt(c, NoItems, global, names, t, |c.code|)
  {
  }

  lemma BlindInit(ch: Chunk, init: Option<Expr>, locals: seq<Local>, name: string, p: nat, pool: Pool)
    requires |locals| > 0
    requires CheckInit(init, locals + [Local(name, -1, false)], pool).Some?
    requires InitAt(ch, init, PushNil, NamesOf(locals + [Local(name, -1, false)]), p)
    ensures InitAt(ch, init, PushNil, NamesOf(locals), p)
  {
    hide ExprAt, CheckExpr;
    assert NamesOf(locals + [Local(name, -1, false)]) == NamesOf(locals) + [name];
    if init.Some? { InitialiserBlind(ch, init.value, locals, name, p, pool); }
  }

  lemma DeclarationKeeps(before: seq<Local>, locals: seq<Local>, name: Name, constant: bool, depth: nat, outer: int)
    requires |before| > 0 && Nested(before, depth) && outer < depth && depth > 0
    requires locals == before + [Local(name, depth, constant)]
    ensures Nested(locals, depth) && Shallow(locals, outer) == Shallow(before, outer)
  {
    ShallowIs(locals, outer, Shallow(before, outer));
  }

  lemma DeeperScope(locals: seq<Local>, depth: nat)
    requires depth > 0 && Nested(locals, depth - 1)
    ensures Nested(locals, depth)
  {
  }

  lemma AllOutside(locals: seq<Local>, depth: nat)
    requires Nested(locals, depth)
    ensures Shallow(locals, depth) == |locals|
  {
    ShallowIs(locals, depth, |locals|);
  }

  /** Closing a scope forgets exactly what was declared in it. */
  lemma ScopeReturns(locals: seq<Local>, items: Items, depth: nat)
    requires |locals| > 0 && depth > 0 && Nested(locals, depth - 1)
    ensures var r := ScopeAll(locals, items, depth);
            && r[..Shallow(r, depth - 1)] == locals && |r| - |locals| == Declared(items)
  {
    hide ExtendAll, Declared, ScopeAll, Nested, Shallow;
    DeeperScope(locals, depth);
    ScopeAllKeeps(locals, items, depth, depth - 1);
    AllOutside(locals, depth - 1);
    assert |NamesOf(ScopeAll(locals, items, depth))| == |ExtendAll(NamesOf(locals), items, false)|;
  }

  lemma CheckWhileIs(test: Option<Expr>, body: Stmt, locals: seq<Local>, depth: nat, t: Target, p: nat, b: nat, pool: Pool)
    requires |locals| > 0 && b == p + InitLen(test) + 4
    ensures CheckStmt(While(test, body), locals, depth, t, p, pool) ==
            match CheckInit(test, locals, pool)
            case None => None
            case Some(pool1) =>
              if b + StmtLen(body, 0) + 3 - p > MAX_JUMP then None
              else CheckStmt(body, locals, depth, InLoop(p, |locals| - 1, None), b, pool1)
  {
    hide InitLen, CheckInit, StmtLen;
  }

  lemma CheckForIs(s: Stmt, locals: seq<Local>, depth: nat, t: Target, p: nat, q: nat, pool: Pool)
    requires |locals| > 0 && s.For? && q == p + ItemsLen(s.init, false, Extra(NamesOf(locals), t))
    ensures CheckStmt(s, locals, depth, t, p, pool) ==
            match CheckItems(s.init, locals, depth + 1, t, p, pool)
            case None => None
            case Some(pool1) => CheckFor(s.test, s.step, s.body, ScopeAll(locals, s.init, depth + 1), depth + 1, q, pool1)
  {
    hide CheckItems, CheckFor, ItemsLen, ScopeAll, CheckExpr, CheckInit, CheckCases, StmtLen, ExprLen;
  }

  lemma CheckForSteps(test: Option<Expr>, step: Option<Expr>, body: Stmt, locals: seq<Local>, depth: nat, p: nat, q: nat,
                      b: nat, pool: Pool)
    requires |locals| > 0 && q == p + TestLen(test) && b == q + StepLen(step)
    ensures CheckFor(test, step, body, locals, depth, p, pool) ==
            match CheckInit(test, locals, pool)
            case None => None
            case Some(pool1) =>
              match CheckInit(step, locals, pool1)
              case None => None
              case Some(pool2) =>
                var m := b + StmtLen(body, 0);
                var back := if step.Some? then q + 3 else p;
                if step.Some? && b - p > MAX_JUMP then None
                else if test.Some? && m - p - ExprLen(test.value) > MAX_JUMP then None
                else if m + 3 - back > MAX_JUMP then None
                else CheckStmt(body, locals, depth, InLoop(back, |locals| - 1, None), b, pool2)
  {
    hide CheckInit, CheckStmt, StmtLen, ExprLen, TestLen, StepLen;
  }

  lemma OptionalLens(test: Option<Expr>, step: Option<Expr>)
    ensures TestLen(test) == if test.Some? then ExprLen(test.value) + 4 else 0
    ensures StepLen(step) == if step.Some? then ExprLen(step.value) + 7 else 0
  {
  }

  lemma CheckSwitch(subject: Expr, cases: Cases, locals: seq<Local>, depth: nat, t: Target, p: nat, q: nat, pool: Pool)
    requires |locals| > 0 && q == p + ExprLen(subject)
    ensures CheckStmt(Switch(subject, cases), locals, depth, t, p, pool) ==
            match CheckExpr(subject, locals, pool)
            case None => None
            case Some(pool1) => CheckCases(cases, 0, locals, depth, t, q, pool1)
  {
  }

  lemma CheckDefault(default: Option<Stmt>, count: nat, locals: seq<Local>, depth: nat, t: Target, p: nat, pool: Pool)
    requires |locals| > 0
    ensures CheckCases(Otherwise(default), count, locals, depth, t, p, pool) ==
            if default.Some? then CheckStmt(default.value, locals, depth, t, p + 1, pool) else Some(pool)
  {
  }

  /** The values of a case. */
  function CheckTop(first: Expr, more: Exprs, locals: seq<Local>, pool: Pool): Option<Pool> {
    match CheckExpr(first, locals, pool)
    case None => None
    case Some(pool1) => CheckExprs(more, locals, pool1)
  }

  lemma CheckCase(cs: Cases, count: nat, locals: seq<Local>, depth: nat, t: Target, p: nat, j: nat, pool: Pool)
    requires |locals| > 0 && cs.MoreCases? && j == p + TopLen(cs.first, cs.more)
    ensures CheckCases(cs, count, locals, depth, t, p, pool) ==
            match CheckTop(cs.first, cs.more, locals, pool)
            case None => None
            case Some(pool1) =>
              var a := StmtLen(cs.body, Extra(NamesOf(locals), t));
              match CheckStmt(cs.body, locals, depth, t, j + 3, pool1)
              case None => None
              case Some(pool2) =>
                if a + 3 > MAX_JUMP || count + 1 > 255 || CasesLen(cs.rest, Extra(NamesOf(locals), t)) > MAX_JUMP then None
                else CheckCases(cs.rest, count + 1, locals, depth, t, j + a + 6, pool2)
  {
    hide CheckExpr, CheckExprs, ExprLen, ExprsLen, MultiLen, Extra, StmtLen, CasesLen;
  }

  /** One placeholder patched: the rest of the scan sees the same instructions. */
  lemma MarkStep(c: seq<Byte>, d: seq<Byte>, i: nat)
    requires i + 3 <= |c| && c[i] == OP_BREAK && Stream(c, map[], i, |c|)
    requires d == AimHere(Chunk(c[i := OP_JUMP], []), i + 1).code
    ensures |d| == |c| && Stream(d, map[], i + 3, |d|)
    ensures PatchFrom(c, map[], i, |c|) == PatchFrom(d, map[], i + 3, |c|)
  {
    hide ArgCount;
    assert d == Mark(c, i, |c|);
    assert c[i + 3..] == d[i + 3..];
    SameStream(c, d, map[], i + 3);
  }

  lemma NoPops(code: seq<Byte>)
    ensures code + Pops(0) == code
  {
  }

  lemma OneMorePop(code: seq<Byte>, n: nat)
    ensures code + Pops(n) + [OP_POP] == code + Pops(n + 1)
  {
    PopsMore(n);
  }

  /** Constants added before the code does not matter. */
  lemma MoreConstants(c: Chunk, c1: Chunk, d: Chunk, len: nat)
    requires c1.code == c.code && c.constants <= c1.constants && Grows(c1, d, len)
    ensures Grows(c, d, len)
  {
  }

  lemma LoopGrows(c: Chunk, d: Chunk)
    requires |d.code| == |c.code| + 3 && c.code <= d.code && d.constants == c.constants
    ensures Grows(c, d, 3)
  {
  }

  lemma NoExtra(names: seq<string>, start: nat)
    ensures Extra(names, InLoop(start, |names|, None)) == 0
  {
  }

  /** After the jump back the rest of the code is whole instructions from the body `c` on, also with the
      exit jump aimed. */
  lemma LoopEnds(c: Chunk, c1: Chunk, c2: Chunk, body: Stmt, names: seq<string>, back: nat, end: int)
    requires end == -1 || 0 <= end <= |c.code| - 2
    requires Grows(c, c1, StmtLen(body, 0)) && StmtAt(c1, body, names, InLoop(back, |names|, None), |c.code|)
    requires back <= |c1.code| && Grows(c1, c2, 3) && At(c2.code, |c1.code|, Loop(|c1.code| + 3 - back))
    requires |c1.code| + 3 - back <= MAX_JUMP && back <= |c.code|
    ensures end == -1 || 0 <= end <= |c2.code| - 2
    ensures end != -1 && |c2.code| - end - 2 <= MAX_JUMP ==> Aimed(c2, AimHere(c2, end), end)
    ensures end != -1 ==> Popped(AimHere(c2, end), Exited(c2, end))
    ensures |c2.code| + 1 - |c.code| <= 65538
    ensures end == -1 || |c2.code| - end - 2 <= MAX_JUMP ==>
              Stream(Exited(c2, end).code, map[], |c.code|, |Exited(c2, end).code|)
  {
    hide StmtAt, StmtLen, At, Stream, AimHere, Aimed;
    GrowsLen(c, c1, StmtLen(body, 0));
    GrowsLen(c1, c2, 3);
    var t := InLoop(back, |names|, None);
    NoExtra(names, back);
    if end == -1 {
      GrowStmt(c1, c2, 3, body, names, t, |c.code|);
      LoopStream(c2, body, names, back, |c.code|, |c1.code| + 3 - back, false);
    } else if |c2.code| - end - 2 <= MAX_JUMP {
      AimHereAims(c2, end);
      BodySurvives(c, c1, c2, AimHere(c2, end), Exited(c2, end), body, names, back, end);
      LoopStream(Exited(c2, end), body, names, back, |c.code|, |c1.code| + 3 - back, true);
    }
  }

  lemma NothingGrows(c: Chunk)
    ensures Grows(c, c, 0)
  {
  }

  class Compiler {
    var code: seq<Byte>
    var constants: seq<Value>
    var stringConstants: map<string, Byte>
    var fixedGlobals: set<string>
    var locals: seq<Local>
    var scopeDepth: nat
    var loops: seq<LoopFrame>
    var hadError: bool

    ghost function Here(): Chunk
      reads this`code, this`constants
    {
      Chunk(code, constants)
    }

    ghost function Consts(): Pool
      reads this`constants, this`stringConstants, this`fixedGlobals
    {
      Pool(constants, stringConstants, fixedGlobals)
    }

    /** Slot zero belongs to the function itself and has no name; every other slot has one. */
    ghost predicate Slots()
      reads this`locals, this`constants, this`stringConstants, this`fixedGlobals
      ensures Slots() ==> |locals| > 0
    {
      && 1 <= |locals| <= 256
      && locals[0] == Local("", 0, false)
      && (forall i :: 1 <= i < |locals| ==> locals[i].name != "")
      && PoolOk(Consts())
    }

    constructor ()
      ensures Slots() && !hadError && code == [] && Consts() == Pool([], map[], {})
      ensures locals == [Local("", 0, false)] && scopeDepth == 0 && loops == []
    {
      code, constants, stringConstants, fixedGlobals := [], [], map[], {};
      locals := [Local("", 0, false)];
      scopeDepth := 0;
      loops := [];
      hadError := false;
    }

    // ---- emitting bytes ----

    method EmitByte(b: Byte)
      modifies this`code
      ensures code == old(code) + [b]
    {
      code := code + [b];
    }

    method EmitBytes(a: Byte, b: Byte)
      modifies this`code
      ensures code == old(code) + [a, b]
    {
      EmitByte(a);
      EmitByte(b);
    }

    /** Emits a jump with a placeholder distance and returns where the distance goes. */
    method EmitJump(op: Byte) returns (operand: nat)
      modifies this`code
      ensures code == old(code) + [op, 255, 255]
      ensures operand == |old(code)| + 1
    {
      EmitByte(op);
      EmitByte(255);
      EmitByte(255);
      operand := |code| - 2;
    }

    /** Makes the jump whose distance is at `operand` lead to the current end of the code. */
    method PatchJump(operand: nat)
      requires operand + 2 <= |code| && !hadError
      modifies this`code, this`hadError
      ensures |code| == |old(code)|
      ensures hadError <==> |code| - operand - 2 > MAX_JUMP
      ensures !hadError ==> Aimed(old(Here()), Here(), operand)
      ensures Here() == AimHere(old(Here()), operand)
    {
      var jump := |code| - operand - 2;
      if jump > MAX_JUMP {
        hadError := true;
      }
      code := code[operand := Hi(jump)][operand + 1 := Lo(jump)];
      assert !hadError ==> jump / 256 < 256 && jump / 256 * 256 + jump % 256 == jump;
    }

    /** A backward jump to `start`. */
    method EmitLoop(start: nat)
      requires start <= |code| && !hadError
      modifies this`code, this`hadError
      ensures hadError <==> |old(code)| + 3 - start > MAX_JUMP
      ensures |code| == |old(code)| + 3 && old(code) <= code
      ensures !hadError ==> At(code, |old(code)|, Loop(|old(code)| + 3 - start))
    {
      EmitByte(OP_LOOP);
      var offset := |code| - start + 2;
      if offset > MAX_JUMP {
        hadError := true;
      }
      EmitByte(Hi(offset));
      EmitByte(Lo(offset));
      assert !hadError ==> offset / 256 < 256 && offset / 256 * 256 + offset % 256 == offset;
    }

    /** Where the first way of a two-way branch ends and the second begins: a jump over the second,
        the conditional jump aimed here, and the pop of the condition. */
    method BeginElse(elseJump: nat) returns (endJump: nat, ghost mid: Chunk)
      requires elseJump + 2 <= |code| && !hadError
      modifies this`code, this`hadError
      ensures hadError <==> |old(code)| + 3 - elseJump - 2 > MAX_JUMP
      ensures !hadError ==> Aimed(Chunk(old(code) + [OP_JUMP, 255, 255], constants), mid, elseJump)
      ensures !hadError ==> Here() == Chunk(mid.code + [OP_POP], mid.constants) && endJump == |old(code)| + 1
      ensures !hadError ==> |code| == |old(code)| + 4
    {
      endJump := EmitJump(OP_JUMP);
      PatchJump(elseJump);
      mid := Here();
      if hadError { return; }
      EmitByte(OP_POP);
    }

    // ---- constants ----

    method MakeConstant(v: Value) returns (index: Byte)
      requires Slots() && !hadError
      modifies this`constants, this`hadError
      ensures hadError <==> AddConstant(old(Consts()), v).None?
      ensures !hadError ==> Slots() && Consts() == AddConstant(old(Consts()), v).value && index == |old(constants)|
      ensures old(constants) <= constants
    {
      var count := |constants|;
      constants := constants + [v];
      if count > 255 {
        hadError := true;
        return 0;
      }
      index := count;
    }

    method EmitConstant(v: Value)
      requires Slots() && !hadError && !v.Nil? && !v.Bool?
      modifies this`code, this`constants, this`hadError
      ensures hadError <==> AddConstant(old(Consts()), v).None?
      ensures !hadError ==> Slots() && Consts() == AddConstant(old(Consts()), v).value
      ensures !hadError ==> |code| == |old(code)| + 2 && old(code) <= code && LiteralAt(Here(), v, |old(code)|)
    {
      var index := MakeConstant(v);
      if hadError { return; }
      EmitBytes(OP_CONSTANT, index);
    }

    /** The constant holding a name, shared by all uses of the name in this function. */
    method IdentifierConstant(name: string) returns (index: Byte)
      requires Slots() && !hadError
      modifies this`constants, this`stringConstants, this`hadError
      ensures hadError <==> AddName(old(Consts()), name).None?
      ensures !hadError ==> Slots() && Consts() == AddName(old(Consts()), name).value
      ensures !hadError ==> index < |constants| && constants[index] == Str(name)
      ensures old(constants) <= constants
    {
      if name in stringConstants {
        return stringConstants[name];
      }
      index := MakeConstant(Str(name));
      if hadError { return; }
      stringConstants := stringConstants[name := index];
    }

    // ---- variables ----

    /** Innermost first, so that inner declarations shadow outer ones. */
    method ResolveLocal(name: string) returns (slot: int)
      requires Slots() && !hadError
      modifies this`hadError
      ensures slot == Slot(locals, name)
      ensures hadError <==> slot >= 0 && locals[slot].depth == -1
    {
      var i := |locals| - 1;
      while i >= 0
        invariant -1 <= i < |locals|
        invariant forall j :: i < j < |locals| ==> locals[j].name != name
        invariant !hadError
      {
        if locals[i].name == name {
          if locals[i].depth == -1 {
            hadError := true;
          }
          return i;
        }
        i := i - 1;
      }
      return -1;
    }

    /** Reading a variable: a local slot, or a module variable by name. */
    method NamedVariable(name: Name)
      requires Slots() && !hadError
      modifies this`code, this`constants, this`stringConstants, this`hadError
      ensures hadError <==> CheckExpr(Variable(name), locals, old(Consts())).None?
      ensures !hadError ==> Slots() && Consts() == CheckExpr(Variable(name), locals, old(Consts())).value
      ensures !hadError ==> Grows(old(Here()), Here(), 2) && ExprAt(Here(), Variable(name), NamesOf(locals), |old(code)|)
    {
      SlotIsResolution(locals, name);
      var slot := ResolveLocal(name);
      if hadError { return; }
      if slot != -1 {
        EmitBytes(OP_GET_LOCAL, slot);
      } else {
        var index := IdentifierConstant(name);
        if hadError { return; }
        EmitBytes(OP_GET_MODULE, index);
      }
    }

    /** `name = rhs`: the rules for `name` are checked before `rhs` is compiled. */
    method Assignment(name: Name, rhs: Expr)
      requires Slots() && !hadError
      modifies this`code, this`constants, this`stringConstants, this`hadError
      ensures hadError <==> CheckExpr(Assign(name, rhs), locals, old(Consts())).None?
      ensures !hadError ==> Slots() && Consts() == CheckExpr(Assign(name, rhs), locals, old(Consts())).value
      ensures !hadError ==> Grows(old(Here()), Here(), ExprLen(Assign(name, rhs)))
      ensures !hadError ==> ExprAt(Here(), Assign(name, rhs), NamesOf(locals), |old(code)|)
      decreases Assign(name, rhs), 0
    {
      hide ExprAt, ExprLen, Grows, CheckWrite, PoolOk, Resolve, Slot, NamesOf;
      CheckAssign(name, rhs, locals, Consts());
      SlotIsResolution(locals, name);
      ghost var c0 := Here();
      var setOp, arg := StoreOperand(name);
      if hadError { return; }
      ghost var c := Here();
      Expression(rhs);
      if hadError { return; }
      ghost var c1 := Here();
      EmitBytes(setOp, arg);
      AssignLaidOut(c, c1, Here(), name, rhs, NamesOf(locals), setOp, arg);
      MoreConstants(c0, c, Here(), ExprLen(Assign(name, rhs)));
    }

    /** Where an assignment stores: the instruction and its operand. */
    method StoreOperand(name: Name) returns (setOp: Byte, arg: Byte)
      requires Slots() && !hadError
      modifies this`constants, this`stringConstants, this`hadError
      ensures hadError <==> CheckWrite(name, locals, old(Consts())).None?
      ensures !hadError ==> Slots() && Consts() == CheckWrite(name, locals, old(Consts())).value
      ensures old(constants) <= constants
      ensures !hadError ==>
                var slot := Slot(locals, name);
                if 0 <= slot then setOp == OP_SET_LOCAL && arg == slot
                else setOp == OP_SET_MODULE && arg < |constants| && constants[arg] == Str(name)
    {
      setOp, arg := OP_SET_MODULE, 0;
      var slot := ResolveLocal(name);
      if hadError { return; }
      if slot != -1 {
        setOp, arg := OP_SET_LOCAL, slot;
        if locals[slot].constant {
          hadError := true;
        }
      } else {
        arg := IdentifierConstant(name);
        if hadError { return; }
        if name in fixedGlobals {
          hadError := true;
        }
      }
    }

    // ---- expressions ----

    /** Compiles `e`, reporting an error exactly when the source text breaks a rule or a limit. */
    method Expression(e: Expr)
      requires Slots() && !hadError
      modifies this`code, this`constants, this`stringConstants, this`hadError
      ensures hadError <==> CheckExpr(e, locals, old(Consts())).None?
      ensures !hadError ==> Slots() && Consts() == CheckExpr(e, locals, old(Consts())).value
      ensures !hadError ==> Grows(old(Here()), Here(), ExprLen(e)) && ExprAt(Here(), e, NamesOf(locals), |old(code)|)
      decreases e, 1
    {
      match e
      case Literal(v) =>
        if v.Nil? { EmitByte(OP_NIL); }
        else if v.Bool? { EmitByte(if v.b then OP_TRUE else OP_FALSE); }
        else { EmitConstant(v); }
      case Variable(name) => NamedVariable(name);
      case Assign(name, rhs) => Assignment(name, rhs);
      case Not(e1) => Unary(e, e1, OP_NOT);
      case Negate(e1) => Unary(e, e1, OP_NEGATE);
      case Binary(op, l, r) => BinaryExpr(op, l, r);
      case And(l, r) => AndExpr(l, r);
      case Or(l, r) => OrExpr(l, r);
      case Ternary(c, yes, no) => TernaryExpr(c, yes, no);
    }

    method Unary(e: Expr, e1: Expr, op: Byte)
      requires Slots() && !hadError
      requires (e == Not(e1) && op == OP_NOT) || (e == Negate(e1) && op == OP_NEGATE)
      modifies this`code, this`constants, this`stringConstants, this`hadError
      ensures hadError <==> CheckExpr(e, locals, old(Consts())).None?
      ensures !hadError ==> Slots() && Consts() == CheckExpr(e, locals, old(Consts())).value
      ensures !hadError ==> Grows(old(Here()), Here(), ExprLen(e)) && ExprAt(Here(), e, NamesOf(locals), |old(code)|)
      decreases e, 0
    {
      hide ExprAt, ExprLen, Grows, PoolOk, NamesOf, Slots;
      ghost var c := Here();
      Expression(e1);
      if hadError { return; }
      ghost var c1 := Here();
      EmitByte(op);
      UnaryLaidOut(c, c1, Here(), e, e1, NamesOf(locals));
    }

    method BinaryExpr(op: BinaryOp, l: Expr, r: Expr)
      requires Slots() && !hadError
      modifies this`code, this`constants, this`stringConstants, this`hadError
      ensures hadError <==> CheckExpr(Binary(op, l, r), locals, old(Consts())).None?
      ensures !hadError ==> Slots() && Consts() == CheckExpr(Binary(op, l, r), locals, old(Consts())).value
      ensures !hadError ==> Grows(old(Here()), Here(), ExprLen(Binary(op, l, r)))
      ensures !hadError ==> ExprAt(Here(), Binary(op, l, r), NamesOf(locals), |old(code)|)
      decreases Binary(op, l, r), 0
    {
      hide ExprAt, ExprLen, Grows, Aimed, PoolOk, NamesOf, Slots, OperatorAt;
      ghost var c := Here();
      Expression(l);
      if hadError { return; }
      ghost var c1 := Here();
      Expression(r);
      if hadError { return; }
      ghost var c2 := Here();
      EmitOperator(op);
      BinaryLaidOut(c, c1, c2, Here(), op, l, r, NamesOf(locals));
    }

    /** Comparisons without an instruction of their own are negations of the opposite one. */
    method EmitOperator(op: BinaryOp)
      modifies this`code
      ensures Grows(old(Here()), Here(), OpLen(op)) && OperatorAt(code, op, |old(code)|)
    {
      match op
      case NotEqual => EmitBytes(OP_EQUAL, OP_NOT);
      case Equal => EmitByte(OP_EQUAL);
      case GreaterEqual => EmitBytes(OP_LESS, OP_NOT);
      case LessEqual => EmitBytes(OP_GREATER, OP_NOT);
      case Op(o) => EmitByte(OperatorCode(o));
    }

    method AndExpr(l: Expr, r: Expr)
      requires Slots() && !hadError
      modifies this`code, this`constants, this`stringConstants, this`hadError
      ensures hadError <==> CheckExpr(And(l, r), locals, old(Consts())).None?
      ensures !hadError ==> Slots() && Consts() == CheckExpr(And(l, r), locals, old(Consts())).value
      ensures !hadError ==> Grows(old(Here()), Here(), ExprLen(And(l, r)))
      ensures !hadError ==> ExprAt(Here(), And(l, r), NamesOf(locals), |old(code)|)
      decreases And(l, r), 0
    {
      hide ExprAt, ExprLen, Grows, Aimed, PoolOk, NamesOf, Slots;
      ghost var c := Here();
      Expression(l);
      if hadError { return; }
      ghost var c1 := Here();
      var endJump := EmitJump(OP_JUMP_IF_FALSE);
      EmitByte(OP_POP);
      ghost var c2 := Here();
      Expression(r);
      if hadError { return; }
      ghost var c3 := Here();
      PatchJump(endJump);
      if hadError { return; }
      AndLaidOut(c, c1, c2, c3, Here(), l, r, NamesOf(locals));
    }

    method OrExpr(l: Expr, r: Expr)
      requires Slots() && !hadError
      modifies this`code, this`constants, this`stringConstants, this`hadError
      ensures hadError <==> CheckExpr(Or(l, r), locals, old(Consts())).None?
      ensures !hadError ==> Slots() && Consts() == CheckExpr(Or(l, r), locals, old(Consts())).value
      ensures !hadError ==> Grows(old(Here()), Here(), ExprLen(Or(l, r)))
      ensures !hadError ==> ExprAt(Here(), Or(l, r), NamesOf(locals), |old(code)|)
      decreases Or(l, r), 0
    {
      hide ExprAt, ExprLen, Grows, Aimed, PoolOk, NamesOf, Slots;
      ghost var c := Here();
      Expression(l);
      if hadError { return; }
      ghost var c1 := Here();
      var elseJump := EmitJump(OP_JUMP_IF_FALSE);
      ghost var c2 := Chunk(c1.code + [OP_JUMP_IF_FALSE, 255, 255] + [OP_JUMP, 255, 255], c1.constants);
      var endJump;
      ghost var c3;
      endJump, c3 := BeginElse(elseJump);
      ghost var c4 := Here();
      Expression(r);
      if hadError { return; }
      ghost var c5 := Here();
      PatchJump(endJump);
      if hadError { return; }
      OrLaidOut(c, c1, c2, c3, c4, c5, Here(), l, r, NamesOf(locals));
    }

    method TernaryExpr(x: Expr, yes: Expr, no: Expr)
      requires Slots() && !hadError
      modifies this`code, this`constants, this`stringConstants, this`hadError
      ensures hadError <==> CheckExpr(Ternary(x, yes, no), locals, old(Consts())).None?
      ensures !hadError ==> Slots() && Consts() == CheckExpr(Ternary(x, yes, no), locals, old(Consts())).value
      ensures !hadError ==> Grows(old(Here()), Here(), ExprLen(Ternary(x, yes, no)))
      ensures !hadError ==> ExprAt(Here(), Ternary(x, yes, no), NamesOf(locals), |old(code)|)
      decreases Ternary(x, yes, no), 0
    {
      hide ExprAt, ExprLen, Grows, Aimed, PoolOk, NamesOf, Slots, CheckExpr, Short;
      CheckTernary(x, yes, no, locals, Consts());
      ghost var c := Here();
      Expression(x);
      if hadError { return; }
      ghost var c1 := Here();
      var elseJump := EmitJump(OP_JUMP_IF_FALSE);
      EmitByte(OP_POP);
      ghost var c2 := Here();
      Expression(yes);
      if hadError { return; }
      ghost var c3 := Here();
      GrowsLen(c2, c3, ExprLen(yes));
      var endJump;
      ghost var c5;
      endJump, c5 := BeginElse(elseJump);
      if hadError { return; }
      ghost var c6 := Here();
      Expression(no);
      if hadError { return; }
      ghost var c7 := Here();
      GrowsLen(c6, c7, ExprLen(no));
      PatchJump(endJump);
      if hadError { return; }
      TernaryLaidOut(c, c1, c2, c3, Chunk(c3.code + [OP_JUMP, 255, 255], c3.constants), c5, c6, c7, Here(), x, yes, no,
                     NamesOf(locals));
    }

    // ---- scopes ----

    /** Between statements every local is initialised, deeper scopes lie further up, and the loops
        being compiled are no deeper than the current scope. */
    ghost predicate Valid()
      reads this
    {
      && Slots()
      && Nested(locals, scopeDepth)
      && (forall i :: 0 <= i < |loops| ==> loops[i].scopeDepth <= scopeDepth && loops[i].start <= |code|)
    }

    /** The innermost loop; its exit is not known yet. */
    ghost function Around(): Target
      reads this`locals, this`loops
    {
      if loops == [] then NoLoop
      else
        var n := Shallow(locals, loops[|loops| - 1].scopeDepth);
        InLoop(loops[|loops| - 1].start, if n > 0 then n - 1 else 0, None)
    }

    method BeginScope()
      modifies this`scopeDepth
      ensures scopeDepth == old(scopeDepth) + 1
    {
      scopeDepth := scopeDepth + 1;
    }

    /** Pops the variables of the innermost scope off the stack and forgets them. */
    method EndScope()
      requires scopeDepth > 0 && |locals| > 0
      modifies this`scopeDepth, this`locals, this`code
      ensures scopeDepth == old(scopeDepth) - 1
      ensures locals == old(locals)[..Shallow(old(locals), scopeDepth)]
      ensures code == old(code) + Pops(|old(locals)| - |locals|)
    {
      hide Pops, Shallow;
      scopeDepth := scopeDepth - 1;
      ghost var before, from := locals, code;
      NoPops(code);
      assert locals == before[..|locals|];
      while |locals| > 0 && locals[|locals| - 1].depth > scopeDepth
        invariant scopeDepth == old(scopeDepth) - 1
        invariant |locals| <= |before| && locals == before[..|locals|]
        invariant Shallow(before, scopeDepth) == Shallow(locals, scopeDepth)
        invariant code == from + Pops(|before| - |locals|)
      {
        OneMorePop(from, |before| - |locals|);
        ShallowStep(locals, scopeDepth);
        EmitByte(OP_POP);
        locals := locals[..|locals| - 1];
      }
      ShallowStep(locals, scopeDepth);
    }

    /** Pops for `break` and `continue`: the variables declared inside the current loop stay known,
        because the code behind the jump still uses them. */
    method DiscardLoopLocals()
      requires loops != [] && |locals| > 0 && locals[0].depth == 0
      modifies this`code
      ensures code == old(code) + Pops(Extra(NamesOf(locals), Around()))
    {
      hide Pops;
      var depth := loops[|loops| - 1].scopeDepth;
      var i := |locals| - 1;
      ghost var from := code;
      NoPops(code);
      while i >= 0 && locals[i].depth > depth
        invariant -1 <= i < |locals|
        invariant forall j :: i < j < |locals| ==> locals[j].depth > depth
        invariant code == from + Pops(|locals| - 1 - i)
      {
        OneMorePop(from, |locals| - 1 - i);
        EmitByte(OP_POP);
        i := i - 1;
      }
      ShallowIs(locals, depth, i + 1);
    }

    // ---- loops ----

    /** Ends the innermost loop: its exit jump and all of its breaks lead here. The breaks are found by
        walking over the instructions of the loop body. */
    method EndLoop()
      requires loops != [] && !hadError
      requires var l := loops[|loops| - 1];
               && (l.end == -1 || 0 <= l.end <= |code| - 2)
               && l.body <= |code| && |code| + 1 - l.body <= 65538
               && (l.end == -1 || |code| - l.end - 2 <= MAX_JUMP ==>
                     var c := Exited(Here(), l.end); Stream(c.code, map[], l.body, |c.code|))
      modifies this`code, this`loops, this`hadError
      ensures |code| >= |old(code)|
      ensures var l := old(loops)[|old(loops)| - 1];
              && (hadError <==> l.end != -1 && |old(code)| - l.end - 2 > MAX_JUMP)
              && (!hadError ==> BreaksPatched(Exited(old(Here()), l.end), Here(), l.body))
      ensures !hadError ==> loops == old(loops)[..|old(loops)| - 1]
    {
      var l := loops[|loops| - 1];
      if l.end != -1 {
        PatchJump(l.end);
        if hadError { return; }
        EmitByte(OP_POP);
      }
      PatchBreaks(l.body);
      loops := loops[..|loops| - 1];
    }

    /** Walks from instruction to instruction, turning every placeholder into a jump to the end. */
    method PatchBreaks(body: nat)
      requires body <= |code| <= body + 65538 && Stream(code, map[], body, |code|) && !hadError
      modifies this`code, this`hadError
      ensures !hadError && BreaksPatched(old(Here()), Here(), body)
    {
      hide ArgCount, Mark;
      ghost var all := code;
      var i := body;
      while i < |code|
        invariant |code| == |all| && body <= i <= |all| && !hadError
        invariant Stream(code, map[], i, |all|)
        invariant PatchFrom(code, map[], i, |all|) == PatchFrom(all, map[], body, |all|)
      {
        if code[i] == OP_BREAK {
          ghost var before := code;
          code := code[i := OP_JUMP];
          PatchJump(i + 1);
          MarkStep(before, code, i);
          i := i + 3;
        } else {
          i := i + 1 + ArgCount(code, map[], i);
        }
      }
    }

    // ---- statements ----

    /** What the limits say about a statement compiled here and now. */
    ghost function Checked(s: Stmt): Option<Pool>
      requires |locals| > 0
      reads this
    {
      CheckStmt(s, locals, scopeDepth, Around(), |code|, Consts())
    }

    lemma CheckedIs(s: Stmt)
      requires |locals| > 0
      ensures Checked(s) == CheckStmt(s, locals, scopeDepth, Around(), |code|, Consts())
    {
    }

    /** Statements leave scopes and loops as they found them. */
    twostate predicate Restored()
      reads this
    {
      && Valid() && locals == old(locals) && scopeDepth == old(scopeDepth) && loops == old(loops)
      && Around() == old(Around())
    }

    /** The code of `s` was appended, laid out for the variables and the loop around it. */
    twostate predicate Emitted(s: Stmt)
      requires old(|locals|) > 0
      reads this
    {
      var names := NamesOf(old(locals));
      var t := old(Around());
      && Grows(old(Here()), Here(), StmtLen(s, Extra(names, t)))
      && |code| == old(|code|) + StmtLen(s, Extra(names, t))
      && StmtAt(Here(), s, names, t, old(|code|))
    }

    lemma AroundBase()
      requires Valid()
      ensures Base(Around()) <= |NamesOf(locals)|
    {
    }

    method Statement(s: Stmt)
      requires Valid() && !hadError
      modifies this
      ensures hadError <==> old(Checked(s)).None?
      ensures !hadError ==> Restored() && Consts() == old(Checked(s)).value && Emitted(s)
      decreases s, 1
    {
      match s
      case Evaluate(e) => ExpressionStatement(e);
      case Block(items) => BlockStatement(items);
      case If(x, yes, no) => IfStatement(x, yes, no);
      case While(test, body) => WhileStatement(test, body);
      case For(_, _, _, _) => ForStatement(s);
      case Switch(subject, cases) => SwitchStatement(subject, cases);
      case Break => BreakStatement();
      case Continue => ContinueStatement();
    }

    method ExpressionStatement(e: Expr)
      requires Valid() && !hadError
      modifies this
      ensures hadError <==> old(Checked(Evaluate(e))).None?
      ensures !hadError ==> Restored() && Consts() == old(Checked(Evaluate(e))).value && Emitted(Evaluate(e))
      decreases Evaluate(e), 0
    {
      hide ExprAt, ExprLen, Grows, PoolOk, NamesOf, Nested, CheckExpr, StmtAt, StmtLen, Extra, Around, Checked, CheckStmt;
      ghost var c, t := Here(), Around();
      CheckedIs(Evaluate(e));
      CheckEvaluate(e, locals, scopeDepth, t, |code|, Consts());
      Expression(e);
      if hadError { return; }
      ghost var c1 := Here();
      EmitByte(OP_POP);
      assert Around() == t;
      EvaluateLaidOut(c, c1, Here(), e, NamesOf(locals), t);
      GrowsLen(c, Here(), StmtLen(Evaluate(e), Extra(NamesOf(locals), t)));
    }

    method IfStatement(x: Expr, yes: Stmt, no: Option<Stmt>)
      requires Valid() && !hadError
      modifies this
      ensures hadError <==> old(Checked(If(x, yes, no))).None?
      ensures !hadError ==> Restored() && Consts() == old(Checked(If(x, yes, no))).value && Emitted(If(x, yes, no))
      decreases If(x, yes, no), 0
    {
      hide ExprAt, ExprLen, Grows, Aimed, PoolOk, NamesOf, Nested, CheckExpr, CheckStmt, StmtAt, StmtLen, Around, Extra,
        Short, Slots, Base;
      AroundBase();
      ghost var names, t := NamesOf(locals), Around();
      ghost var c := Here();
      CheckIf(x, yes, no, locals, scopeDepth, t, |code|, |code| + ExprLen(x), Consts());
      Expression(x);
      if hadError { return; }
      ghost var c1 := Here();
      GrowsLen(c, c1, ExprLen(x));
      var elseJump := EmitJump(OP_JUMP_IF_FALSE);
      EmitByte(OP_POP);
      ghost var c2 := Here();
      assert Around() == t;
      Statement(yes);
      if hadError { return; }
      ghost var c3 := Here();
      ghost var c5, c6, c7 := ElseClause(elseJump, no);
      if hadError { return; }
      IfLaidOut(c, c1, c2, c3, Chunk(c3.code + [OP_JUMP, 255, 255], c3.constants), c5, c6, c7, Here(), x, yes, no, names, t);
      GrowsLen(c, Here(), StmtLen(If(x, yes, no), Extra(names, t)));
    }

    /** From the end of the first way on; the second way may be empty. */
    method ElseClause(elseJump: nat, no: Option<Stmt>) returns (ghost c1: Chunk, ghost c2: Chunk, ghost c3: Chunk)
      requires Valid() && !hadError && elseJump + 2 <= |code|
      modifies this
      ensures hadError <==>
              || old(|code|) + 1 - elseJump > MAX_JUMP
              || (no.Some? && 1 + StmtLen(no.value, Extra(NamesOf(old(locals)), old(Around()))) > MAX_JUMP)
              || (no.Some? && CheckStmt(no.value, old(locals), old(scopeDepth), old(Around()), old(|code|) + 4, old(Consts())).None?)
      ensures !hadError ==>
                var names := NamesOf(old(locals));
                var t := old(Around());
                && Restored()
                && Consts() == (if no.None? then old(Consts())
                   else CheckStmt(no.value, old(locals), old(scopeDepth), t, old(|code|) + 4, old(Consts())).value)
                && Aimed(WithSkip(old(Here())), c1, elseJump) && Popped(c1, c2) && |c2.code| == old(|code|) + 4
                && Grows(c2, c3, if no.Some? then StmtLen(no.value, Extra(names, t)) else 0)
                && (no.Some? ==> StmtAt(c3, no.value, names, t, |c2.code|))
                && Aimed(c3, Here(), old(|code|) + 1)
      decreases no
    {
      hide Grows, Aimed, PoolOk, NamesOf, Nested, CheckStmt, StmtAt, StmtLen, Around, Extra, Short, Slots, Base;
      ghost var t := Around();
      var endJump;
      endJump, c1 := BeginElse(elseJump);
      c2, c3 := Here(), Here();
      if hadError { return; }
      assert Around() == t;
      if no.Some? {
        Statement(no.value);
        if hadError { return; }
      } else {
        NothingGrows(c2);
      }
      c3 := Here();
      PatchJump(endJump);
    }

    method BlockStatement(items: Items)
      requires Valid() && !hadError
      modifies this
      ensures hadError <==> old(Checked(Block(items))).None?
      ensures !hadError ==> Restored() && Consts() == old(Checked(Block(items))).value && Emitted(Block(items))
      decreases Block(items), 0
    {
      hide Grows, PoolOk, NamesOf, Nested, CheckItems, ItemsAt, StmtAt, ItemsLen, StmtLen, Around, Extra, Base, Shallow,
        ScopeAll, Pops, Declared, Checked;
      ghost var names, t, outer := NamesOf(locals), Around(), locals;
      ghost var c := Here();
      AroundBase();
      CheckBlock(items, locals, scopeDepth, t, |code|, Consts());
      CheckedIs(Block(items));
      BeginScope();
      DeeperScope(locals, scopeDepth);
      assert Around() == t;
      Items(items);
      if hadError { return; }
      ghost var c1 := Here();
      ScopeReturns(outer, items, scopeDepth);
      EndScope();
      assert Around() == t;
      BlockLaidOut(c, c1, Here(), items, names, t);
      GrowsLen(c, Here(), StmtLen(Block(items), Extra(names, t)));
    }

    // ---- declarations ----

    /** The declarations and statements of one scope, which is deeper than any loop around it. */
    method Items(items: Items)
      requires Valid() && !hadError
      requires loops != [] ==> loops[|loops| - 1].scopeDepth < scopeDepth
      modifies this
      ensures hadError <==> CheckItems(items, old(locals), old(scopeDepth), old(Around()), old(|code|), old(Consts())).None?
      ensures !hadError ==> Declared'(old(locals), items)
      ensures !hadError ==>
                Consts() == CheckItems(items, old(locals), old(scopeDepth), old(Around()), old(|code|), old(Consts())).value
      ensures !hadError ==>
                var names := NamesOf(old(locals));
                var t := old(Around());
                && Grows(old(Here()), Here(), ItemsLen(items, scopeDepth == 0, Extra(names, t)))
                && ItemsAt(Here(), items, scopeDepth == 0, names, t, old(|code|))
      decreases items, 1
    {
      hide Grows, PoolOk, NamesOf, Nested, CheckItems, CheckItem, ItemsAt, ItemAt, ItemsLen, ItemLen, Around, Extra, Base, Shallow,
        Slots, ScopeAll, Scope;
      ghost var c, names, t, before := Here(), NamesOf(locals), Around(), locals;
      match items
      case NoItems =>
        NoItemsLaidOut(c, scopeDepth == 0, names, t);
        CheckNoItems(locals, scopeDepth, t, |code|, Consts());
      case MoreItems(head, tail) =>
        AroundBase();
        CheckMoreItems(head, tail, locals, scopeDepth, t, |code|, Consts());
        Item(head);
        if hadError { return; }
        ghost var c1 := Here();
        Items(tail);
        if hadError { return; }
        ItemsLaidOut(c, c1, Here(), head, tail, scopeDepth == 0, names, t);
    }

    method Item(item: Item)
      requires Valid() && !hadError
      requires loops != [] ==> loops[|loops| - 1].scopeDepth < scopeDepth
      modifies this
      ensures hadError <==> CheckItem(item, old(locals), old(scopeDepth), old(Around()), old(|code|), old(Consts())).None?
      ensures !hadError ==> Valid() && locals == Scope(old(locals), item, scopeDepth)
      ensures !hadError ==> scopeDepth == old(scopeDepth) && loops == old(loops) && Around() == old(Around())
      ensures !hadError ==>
                Consts() == CheckItem(item, old(locals), old(scopeDepth), old(Around()), old(|code|), old(Consts())).value
      ensures !hadError ==>
                var names := NamesOf(old(locals));
                var t := old(Around());
                && |code| == old(|code|) + ItemLen(item, scopeDepth == 0, Extra(names, t))
                && Grows(old(Here()), Here(), ItemLen(item, scopeDepth == 0, Extra(names, t)))
                && ItemAt(Here(), item, scopeDepth == 0, names, t, old(|code|))
      decreases item, 1
    {
      hide Grows, PoolOk, NamesOf, Nested, CheckStmt, StmtAt, StmtLen, Around, Extra, Base, Shallow, Slots, Names, InitAt, CheckInit,
        Redeclared;
      ghost var c, t := Here(), Around();
      match item
      case Perform(s) => Statement(s);
      case Declare(name, init, constant) =>
        if scopeDepth > 0 {
          LocalDeclaration(name, init, constant);
        } else {
          GlobalDeclaration(item);
        }
    }

    /** `var name = init` inside a scope: the value stays on the stack and becomes the variable. */
    method LocalDeclaration(name: Name, init: Option<Expr>, constant: bool)
      requires Valid() && !hadError && scopeDepth > 0
      requires loops != [] ==> loops[|loops| - 1].scopeDepth < scopeDepth
      modifies this
      ensures hadError <==>
              || Redeclared(old(locals), name, old(scopeDepth)) || |old(locals)| >= 256
              || CheckInit(init, old(locals) + [Local(name, -1, false)], old(Consts())).None?
      ensures !hadError ==> Valid() && locals == old(locals) + [Local(name, scopeDepth, constant)]
      ensures !hadError ==> scopeDepth == old(scopeDepth) && loops == old(loops) && Around() == old(Around())
      ensures !hadError ==> Consts() == CheckInit(init, old(locals) + [Local(name, -1, false)], old(Consts())).value
      ensures !hadError ==> |code| == old(|code|) + InitLen(init) && Grows(old(Here()), Here(), InitLen(init))
      ensures !hadError ==> InitAt(Here(), init, PushNil, NamesOf(old(locals)), old(|code|))
    {
      hide Grows, PoolOk, NamesOf, InitAt, CheckInit, Redeclared, Shallow, InitLen;
      ghost var before, pool, p := locals, Consts(), |code|;
      DeclareVariable(name);
      if hadError { return; }
      Initialiser(init, OP_NIL);
      if hadError { return; }
      BlindInit(Here(), init, before, name, p, pool);
      locals := locals[|locals| - 1 := Local(name, scopeDepth, constant)];
      DeclarationKeeps(before, locals, name, constant, scopeDepth, if loops == [] then -1 else loops[|loops| - 1].scopeDepth);
    }

    /** Every declaration of the current scope is looked at; outer scopes may use the name too. */
    method DeclareVariable(name: Name)
      requires Valid() && !hadError && scopeDepth > 0
      modifies this`locals, this`hadError
      ensures hadError <==> Redeclared(old(locals), name, scopeDepth) || |old(locals)| >= 256
      ensures !hadError ==> locals == old(locals) + [Local(name, -1, false)] && Slots()
    {
      hide PoolOk, Nested;
      var i := |locals| - 1;
      assert locals[..i + 1] == locals;
      while i >= 0 && !(locals[i].depth != -1 && locals[i].depth < scopeDepth)
        invariant -1 <= i < |locals| && locals == old(locals)
        invariant Redeclared(locals, name, scopeDepth) <==> hadError || Redeclared(locals[..i + 1], name, scopeDepth)
      {
        if locals[i].name == name {
          hadError := true;
        }
        assert locals[..i + 1][..i] == locals[..i];
        i := i - 1;
      }
      if |locals| == 256 {
        hadError := true;
        return;
      }
      locals := locals + [Local(name, -1, false)];
    }

    /** An optional expression; `op` pushes the default when there is none. */
    method Initialiser(init: Option<Expr>, op: Byte)
      requires Slots() && !hadError && (op == OP_NIL || op == OP_TRUE)
      modifies this`code, this`constants, this`stringConstants, this`hadError
      ensures hadError <==> CheckInit(init, locals, old(Consts())).None?
      ensures !hadError ==> Slots() && Consts() == CheckInit(init, locals, old(Consts())).value
      ensures !hadError ==> Grows(old(Here()), Here(), InitLen(init)) && |code| == |old(code)| + InitLen(init)
      ensures !hadError ==> InitAt(Here(), init, if op == OP_NIL then PushNil else PushTrue, NamesOf(locals), |old(code)|)
    {
      hide Grows, PoolOk, NamesOf, ExprAt, ExprLen, CheckExpr, Slots;
      ghost var c := Here();
      if init.Some? {
        Expression(init.value);
        if hadError { return; }
        GrowsLen(c, Here(), ExprLen(init.value));
      } else {
        EmitByte(op);
        GrowsBytes(c, Here(), [op]);
      }
    }

    /** `var name = init` at top level: the value is moved into the module's variables. */
    method GlobalDeclaration(item: Item)
      requires Valid() && !hadError && scopeDepth == 0 && item.Declare?
      modifies this
      ensures hadError <==> CheckItem(item, old(locals), 0, old(Around()), old(|code|), old(Consts())).None?
      ensures !hadError ==> Restored()
      ensures !hadError ==> Consts() == CheckItem(item, old(locals), 0, old(Around()), old(|code|), old(Consts())).value
      ensures !hadError ==>
                var names := NamesOf(old(locals));
                var t := old(Around());
                && |code| == old(|code|) + ItemLen(item, true, Extra(names, t))
                && Grows(old(Here()), Here(), ItemLen(item, true, Extra(names, t)))
                && ItemAt(Here(), item, true, names, t, old(|code|))
    {
      hide Grows, NamesOf, InitAt, CheckInit, InitLen, ItemAt, Around, Extra;
      ghost var c0, t := Here(), Around();
      var index := IdentifierConstant(item.name);
      if hadError { return; }
      ghost var c := Here();
      Initialiser(item.init, OP_NIL);
      if hadError { return; }
      ghost var c1 := Here();
      if item.constant {
        fixedGlobals := fixedGlobals + {item.name};
      }
      EmitBytes(OP_DEFINE_MODULE, index);
      GlobalLaidOut(c, c1, Here(), item, index, NamesOf(locals), t);
      MoreConstants(c0, c, Here(), ItemLen(item, true, Extra(NamesOf(locals), t)));
    }

    /** Declarations extend the innermost scope and leave everything else as it was. */
    twostate predicate Declared'(before: seq<Local>, items: Items)
      requires |before| > 0
      reads this
    {
      && Valid() && locals == ScopeAll(before, items, scopeDepth)
      && scopeDepth == old(scopeDepth) && loops == old(loops) && Around() == old(Around())
    }

    method WhileStatement(test: Option<Expr>, body: Stmt)
      requires Valid() && !hadError
      modifies this
      ensures hadError <==> old(Checked(While(test, body))).None?
      ensures !hadError ==> Restored() && Consts() == old(Checked(While(test, body))).value && Emitted(While(test, body))
      decreases While(test, body), 0
    {
      hide Grows, PoolOk, NamesOf, Nested, CheckStmt, CheckInit, InitAt, InitLen, StmtAt, StmtLen, Around, Extra, Base, Shallow,
        Aimed, Popped, Exited, At, BreaksPatched, Slots, Checked;
      ghost var c, names, t := Here(), NamesOf(locals), Around();
      var outer, p := loops, |code|;
      CheckedIs(While(test, body));
      CheckWhileIs(test, body, locals, scopeDepth, t, p, |code| + InitLen(test) + 4, Consts());
      loops := loops + [LoopFrame(|code|, 0, -1, scopeDepth)];
      Initialiser(test, OP_TRUE);
      if hadError { return; }
      ghost var c1 := Here();
      var end := EmitJump(OP_JUMP_IF_FALSE);
      EmitByte(OP_POP);
      loops := outer + [LoopFrame(p, |code|, end, scopeDepth)];
      ghost var c2 := Here();
      ghost var c3, c4 := LoopBody(body);
      if hadError { return; }
      WhileLaidOut(c, c1, c2, c3, c4, AimHere(c4, end), Exited(c4, end), Here(), test, body, names, t);
      GrowsLen(c, Here(), StmtLen(While(test, body), Extra(names, t)));
    }

    /** The body of the innermost loop, the jump back and the end of the loop: `c1` is the code after the
        body and `c2` after the jump back. */
    method LoopBody(body: Stmt) returns (ghost c1: Chunk, ghost c2: Chunk)
      requires Valid() && !hadError && loops != []
      requires var l := loops[|loops| - 1];
               && l.scopeDepth == scopeDepth && l.body == |code| && (l.end == -1 || 0 <= l.end <= |code| - 2)
      modifies this
      ensures var l := old(loops[|loops| - 1]);
              var p := old(|code|);
              var check := CheckStmt(body, old(locals), old(scopeDepth), InLoop(l.start, old(|locals|) - 1, None), p, old(Consts()));
              var m := p + StmtLen(body, 0);
              && (hadError <==>
                    check.None? || m + 3 - l.start > MAX_JUMP || (l.end != -1 && m + 3 - l.end - 2 > MAX_JUMP))
              && (!hadError ==> Consts() == check.value)
      ensures !hadError ==>
                var l := old(loops[|loops| - 1]);
                var names := NamesOf(old(locals));
                && Grows(old(Here()), c1, StmtLen(body, 0))
                && StmtAt(c1, body, names, InLoop(l.start, |names|, None), old(|code|))
                && |c1.code| == old(|code|) + StmtLen(body, 0) && |c2.code| == |c1.code| + 3
                && Grows(c1, c2, 3) && At(c2.code, |c1.code|, Loop(|c1.code| + 3 - l.start))
                && (l.end != -1 ==> Aimed(c2, AimHere(c2, l.end), l.end) && Popped(AimHere(c2, l.end), Exited(c2, l.end)))
                && BreaksPatched(Exited(c2, l.end), Here(), old(|code|))
      ensures !hadError ==> Valid() && locals == old(locals) && scopeDepth == old(scopeDepth)
      ensures !hadError ==> loops == old(loops)[..old(|loops|) - 1]
      decreases body, 3
    {
      hide Grows, PoolOk, NamesOf, CheckStmt, StmtAt, StmtLen, Extra, Base, Shallow, Nested, Aimed, AimHere, At, Exited,
        BreaksPatched, Slots;
      ghost var c, names, l := Here(), NamesOf(locals), loops[|loops| - 1];
      LoopIsTarget();
      Statement(body);
      c1 := Here();
      c2 := Here();
      if hadError { return; }
      NoExtra(names, l.start);
      EmitLoop(loops[|loops| - 1].start);
      c2 := Here();
      if hadError { return; }
      LoopGrows(c1, c2);
      LoopEnds(c, c1, c2, body, names, l.start, l.end);
      EndLoop();
    }

    /** A statement directly inside a loop has nothing to discard. */
    lemma LoopIsTarget()
      requires Valid() && loops != [] && loops[|loops| - 1].scopeDepth == scopeDepth
      ensures Around() == InLoop(loops[|loops| - 1].start, |locals| - 1, None)
    {
      ShallowIs(locals, scopeDepth, |locals|);
    }

    method ForStatement(s: Stmt)
      requires Valid() && !hadError && s.For?
      modifies this
      ensures hadError <==> old(Checked(s)).None?
      ensures !hadError ==> Restored() && Consts() == old(Checked(s)).value && Emitted(s)
      decreases s, 0
    {
      hide Grows, PoolOk, NamesOf, Nested, CheckItems, CheckFor, ItemsAt, ForAt, StmtAt, ItemsLen, ForLen, StmtLen, Around, Extra,
        Base, Shallow, ScopeAll, Pops, Declared, Checked, ExtendAll;
      ghost var names, t, outer := NamesOf(locals), Around(), locals;
      ghost var c := Here();
      AroundBase();
      CheckForIs(s, locals, scopeDepth, t, |code|, |code| + ItemsLen(s.init, false, Extra(names, t)), Consts());
      CheckedIs(s);
      BeginScope();
      DeeperScope(locals, scopeDepth);
      assert Around() == t;
      Items(s.init);
      if hadError { return; }
      ghost var c1 := Here();
      GrowsLen(c, c1, ItemsLen(s.init, false, Extra(names, t)));
      ForLoop(s.test, s.step, s.body);
      if hadError { return; }
      ghost var c2 := Here();
      ScopeReturns(outer, s.init, scopeDepth);
      EndScope();
      assert Around() == t;
      ForStatementLaidOut(c, c1, c2, Here(), s, names, t);
      GrowsLen(c, Here(), StmtLen(s, Extra(names, t)));
    }

    /** A `for` behind its initialiser. */
    method ForLoop(test: Option<Expr>, step: Option<Expr>, body: Stmt)
      requires Valid() && !hadError
      modifies this
      ensures hadError <==> CheckFor(test, step, body, old(locals), old(scopeDepth), old(|code|), old(Consts())).None?
      ensures !hadError ==> Restored()
      ensures !hadError ==> Consts() == CheckFor(test, step, body, old(locals), old(scopeDepth), old(|code|), old(Consts())).value
      ensures !hadError ==> Grows(old(Here()), Here(), ForLen(test, step, body))
      ensures !hadError ==> ForAt(Here(), test, step, body, NamesOf(old(locals)), old(|code|))
      decreases body, 4
    {
      hide Grows, PoolOk, NamesOf, Nested, CheckFor, CheckExpr, CheckStmt, ForAt, ForLen, ExprAt, ExprLen, StmtAt, StmtLen, Around,
        Aimed, Popped, Exited, AimHere, At, BreaksPatched, Slots, StepAt, WithTest, TestLen, StepLen;
      ghost var c, names := Here(), NamesOf(locals);
      var outer, p := loops, |code|;
      CheckForSteps(test, step, body, locals, scopeDepth, p, p + TestLen(test), p + TestLen(test) + StepLen(step), Consts());
      OptionalLens(test, step);
      loops := outer + [LoopFrame(p, 0, -1, scopeDepth)];
      var end: int := -1;
      ghost var c1 := c;
      if test.Some? {
        end, c1 := LoopTest(test.value);
        if hadError { return; }
      }
      loops := outer + [LoopFrame(p, 0, end, scopeDepth)];
      ghost var c2 := Here();
      var start := p;
      if step.Some? {
        start := StepClause(step.value, p);
        if hadError { return; }
      } else {
        NothingGrows(c2);
      }
      ghost var c3 := Here();
      loops := outer + [LoopFrame(start, |code|, end, scopeDepth)];
      ghost var c4, c5 := LoopBody(body);
      if hadError { return; }
      ForLoopLaidOut(c, c1, c2, c3, c4, c5, Here(), end, start, test, step, body, names);
    }

    /** The test of a `for`: the jump out of the loop and the pop of the condition. */
    method LoopTest(test: Expr) returns (end: nat, ghost c1: Chunk)
      requires Slots() && !hadError
      modifies this`code, this`constants, this`stringConstants, this`hadError
      ensures hadError <==> CheckExpr(test, locals, old(Consts())).None?
      ensures !hadError ==> Slots() && Consts() == CheckExpr(test, locals, old(Consts())).value
      ensures !hadError ==> Grows(old(Here()), c1, ExprLen(test)) && ExprAt(c1, test, NamesOf(locals), |old(code)|)
      ensures !hadError ==> |c1.code| == |old(code)| + ExprLen(test) && Here() == WithTest(c1) && |code| == |c1.code| + 4
      ensures !hadError ==> end == |c1.code| + 1
    {
      hide Grows, PoolOk, NamesOf, ExprAt, ExprLen, CheckExpr, Slots;
      ghost var c := Here();
      end := 0;
      Expression(test);
      c1 := Here();
      if hadError { return; }
      GrowsLen(c, c1, ExprLen(test));
      end := EmitJump(OP_JUMP_IF_FALSE);
      EmitByte(OP_POP);
    }

    /** The step of a `for`, in front of the body: jumped over at first, and leading back to the test. */
    method StepClause(step: Expr, start: nat) returns (stepStart: nat)
      requires Slots() && !hadError && start <= |code|
      modifies this`code, this`constants, this`stringConstants, this`hadError
      ensures hadError <==>
              CheckExpr(step, locals, old(Consts())).None? || |old(code)| + ExprLen(step) + 7 - start > MAX_JUMP
      ensures !hadError ==> Slots() && Consts() == CheckExpr(step, locals, old(Consts())).value
      ensures !hadError ==> Grows(old(Here()), Here(), ExprLen(step) + 7) && |code| == |old(code)| + ExprLen(step) + 7
      ensures !hadError ==> StepAt(Here(), step, NamesOf(locals), start, |old(code)|) && stepStart == |old(code)| + 3
    {
      hide Grows, PoolOk, NamesOf, ExprAt, ExprLen, CheckExpr, Slots, At, Aimed, StepAt, AimHere;
      ghost var c := Here();
      var bodyJump := EmitJump(OP_JUMP);
      ghost var c1 := Here();
      stepStart := |code|;
      Expression(step);
      if hadError { return; }
      ghost var c2 := Here();
      GrowsLen(c1, c2, ExprLen(step));
      EmitByte(OP_POP);
      ghost var c3 := Here();
      EmitLoop(start);
      if hadError { return; }
      ghost var c4 := Here();
      LoopGrows(c3, c4);
      PatchJump(bodyJump);
      StepLaidOut(c, c1, c2, c3, c4, Here(), step, NamesOf(locals), start);
      GrowsLen(c, Here(), ExprLen(step) + 7);
    }

    // ---- switch ----

    method SwitchStatement(subject: Expr, cases: Cases)
      requires Valid() && !hadError
      modifies this
      ensures hadError <==> old(Checked(Switch(subject, cases))).None?
      ensures !hadError ==> Restored() && Consts() == old(Checked(Switch(subject, cases))).value && Emitted(Switch(subject, cases))
      decreases Switch(subject, cases), 0
    {
      hide Grows, PoolOk, NamesOf, Nested, CheckCases, CheckExpr, CheckStmt, CasesAt, CasesLen, ExprAt, ExprLen, StmtAt, StmtLen,
        Around, Extra, Slots, Checked;
      ghost var c, names, t := Here(), NamesOf(locals), Around();
      CheckedIs(Switch(subject, cases));
      CheckSwitch(subject, cases, locals, scopeDepth, t, |code|, |code| + ExprLen(subject), Consts());
      Expression(subject);
      if hadError { return; }
      ghost var c1 := Here();
      GrowsLen(c, c1, ExprLen(subject));
      assert Around() == t;
      CaseClauses(cases, 0);
      if hadError { return; }
      SwitchLaidOut(c, c1, Here(), subject, cases, names, t);
      GrowsLen(c, Here(), StmtLen(Switch(subject, cases), Extra(names, t)));
    }

    /** The cases from here on; `count` cases came before. Every case leads behind the last one. */
    method CaseClauses(cs: Cases, count: nat)
      requires Valid() && !hadError
      modifies this
      ensures hadError <==>
              CheckCases(cs, count, old(locals), old(scopeDepth), old(Around()), old(|code|), old(Consts())).None?
      ensures !hadError ==> Restored()
      ensures !hadError ==>
                Consts() == CheckCases(cs, count, old(locals), old(scopeDepth), old(Around()), old(|code|), old(Consts())).value
      ensures !hadError ==>
                var names := NamesOf(old(locals));
                var t := old(Around());
                && Grows(old(Here()), Here(), CasesLen(cs, Extra(names, t)))
                && CasesAt(Here(), cs, names, t, old(|code|), |code|)
      decreases cs, 1
    {
      match cs
      case Otherwise(default) => DefaultClause(default, count);
      case MoreCases(_, _, _, _) => CaseClause(cs, count);
    }

    method DefaultClause(default: Option<Stmt>, count: nat)
      requires Valid() && !hadError
      modifies this
      ensures hadError <==>
              CheckCases(Otherwise(default), count, old(locals), old(scopeDepth), old(Around()), old(|code|), old(Consts())).None?
      ensures !hadError ==> Restored()
      ensures !hadError ==>
                Consts() == CheckCases(Otherwise(default), count, old(locals), old(scopeDepth), old(Around()), old(|code|),
                                       old(Consts())).value
      ensures !hadError ==>
                var names := NamesOf(old(locals));
                var t := old(Around());
                && Grows(old(Here()), Here(), CasesLen(Otherwise(default), Extra(names, t)))
                && CasesAt(Here(), Otherwise(default), names, t, old(|code|), |code|)
      decreases default, 0
    {
      hide Grows, PoolOk, NamesOf, Nested, CheckStmt, CheckCases, CasesAt, CasesLen, StmtAt, StmtLen, Around, Extra, Slots;
      ghost var c, t, names := Here(), Around(), NamesOf(locals);
      CheckDefault(default, count, locals, scopeDepth, t, |code|, Consts());
      EmitByte(OP_POP);
      ghost var c1 := Here();
      assert Around() == t;
      if default.Some? {
        Statement(default.value);
        if hadError { return; }
      } else {
        NothingGrows(c1);
      }
      OtherwiseLaidOut(c, c1, Here(), default, names, t);
    }

    method CaseClause(cs: Cases, count: nat)
      requires Valid() && !hadError && cs.MoreCases?
      modifies this
      ensures hadError <==>
              CheckCases(cs, count, old(locals), old(scopeDepth), old(Around()), old(|code|), old(Consts())).None?
      ensures !hadError ==> Restored()
      ensures !hadError ==>
                Consts() == CheckCases(cs, count, old(locals), old(scopeDepth), old(Around()), old(|code|), old(Consts())).value
      ensures !hadError ==>
                var names := NamesOf(old(locals));
                var t := old(Around());
                && Grows(old(Here()), Here(), CasesLen(cs, Extra(names, t)))
                && CasesAt(Here(), cs, names, t, old(|code|), |code|)
      decreases cs, 0
    {
      hide Grows, PoolOk, NamesOf, Nested, CheckStmt, CheckCases, CheckTop, CasesAt, CasesLen, StmtAt, StmtLen, TopAt, TopLen,
        Around, Extra, Slots, Aimed, AimHere, CaseAt, Base;
      ghost var c, t, names := Here(), Around(), NamesOf(locals);
      AroundBase();
      CheckCase(cs, count, locals, scopeDepth, t, |code|, |code| + TopLen(cs.first, cs.more), Consts());
      var caseEnd;
      ghost var c1, c3;
      caseEnd, c1, c3 := CaseBody(cs);
      if hadError { return; }
      ghost var c5 := Here();
      if count + 1 > 255 {
        hadError := true;
        return;
      }
      CaseClauses(cs.rest, count + 1);
      if hadError { return; }
      ghost var c6 := Here();
      GrowsLen(c5, c6, CasesLen(cs.rest, Extra(names, t)));
      PatchJump(caseEnd);
      if hadError { return; }
      CaseLaidOut(c, c1, WithCompare(c1), c3, WithSkip(c3), c5, c6, Here(), cs.first, cs.more, cs.body, cs.rest, names, t);
      CaseParts(Here(), cs, names, t, |c.code|, |c1.code|, |c3.code|, |c5.code|, |code|);
    }

    /** One case up to the jump behind its body: `c1` is the code after the values, `c2` after the body. */
    method CaseBody(cs: Cases) returns (caseEnd: nat, ghost c1: Chunk, ghost c2: Chunk)
      requires Valid() && !hadError && cs.MoreCases?
      modifies this
      ensures var top := CheckTop(cs.first, cs.more, old(locals), old(Consts()));
              var j := old(|code|) + TopLen(cs.first, cs.more);
              && (hadError <==>
                    || top.None?
                    || CheckStmt(cs.body, old(locals), old(scopeDepth), old(Around()), j + 3, top.value).None?
                    || StmtLen(cs.body, Extra(NamesOf(old(locals)), old(Around()))) + 3 > MAX_JUMP)
              && (!hadError ==>
                    Consts() == CheckStmt(cs.body, old(locals), old(scopeDepth), old(Around()), j + 3, top.value).value)
      ensures !hadError ==> Restored()
      ensures !hadError ==>
                var names := NamesOf(old(locals));
                var t := old(Around());
                var a := StmtLen(cs.body, Extra(names, t));
                && Grows(old(Here()), c1, TopLen(cs.first, cs.more)) && TopAt(c1, cs.first, cs.more, names, old(|code|))
                && |c1.code| == old(|code|) + TopLen(cs.first, cs.more) && |c2.code| == |c1.code| + 3 + a
                && Grows(WithCompare(c1), c2, a) && StmtAt(c2, cs.body, names, t, |c1.code| + 3)
                && Aimed(WithSkip(c2), Here(), |c1.code| + 1) && |code| == |c2.code| + 3 && caseEnd == |c2.code| + 1
      decreases cs.body, 2
    {
      hide Grows, PoolOk, NamesOf, Nested, CheckStmt, CheckTop, StmtAt, StmtLen, TopAt, TopLen, Around, Extra, Slots, Aimed, AimHere;
      ghost var t, names := Around(), NamesOf(locals);
      caseEnd := 0;
      c1, c2 := Here(), Here();
      CaseValues(cs.first, cs.more);
      if hadError { return; }
      c1 := Here();
      var compareJump := EmitJump(OP_COMPARE_JUMP);
      assert Around() == t;
      Statement(cs.body);
      c2 := Here();
      if hadError { return; }
      caseEnd := EmitJump(OP_JUMP);
      PatchJump(compareJump);
      assert Around() == t;
    }

    /** The values of a case. Their number is one byte of the instruction that compares them all. */
    method CaseValues(first: Expr, more: Exprs)
      requires Slots() && !hadError
      modifies this`code, this`constants, this`stringConstants, this`hadError
      ensures hadError <==> CheckTop(first, more, locals, old(Consts())).None?
      ensures !hadError ==> Slots() && Consts() == CheckTop(first, more, locals, old(Consts())).value
      ensures !hadError ==> Grows(old(Here()), Here(), TopLen(first, more)) && |code| == |old(code)| + TopLen(first, more)
      ensures !hadError ==> TopAt(Here(), first, more, NamesOf(locals), |old(code)|)
    {
      hide Grows, PoolOk, NamesOf, ExprAt, ExprsAt, ExprLen, ExprsLen, CheckExpr, CheckExprs, Slots, TopLen, TopAt;
      ghost var c, names := Here(), NamesOf(locals);
      Expression(first);
      if hadError { return; }
      ghost var c1 := Here();
      var multipleCases := Expressions(more);
      if hadError { return; }
      ghost var c2 := Here();
      if more.MoreExprs? {
        EmitBytes(OP_MULTI_CASE, multipleCases % 256);
      }
      TopLaidOut(c, c1, c2, Here(), first, more, names);
      GrowsLen(c, Here(), TopLen(first, more));
    }

    method Expressions(es: Exprs) returns (count: nat)
      requires Slots() && !hadError
      modifies this`code, this`constants, this`stringConstants, this`hadError
      ensures hadError <==> CheckExprs(es, locals, old(Consts())).None?
      ensures !hadError ==> Slots() && Consts() == CheckExprs(es, locals, old(Consts())).value && count == Count(es)
      ensures !hadError ==> Grows(old(Here()), Here(), ExprsLen(es)) && ExprsAt(Here(), es, NamesOf(locals), |old(code)|)
      decreases es
    {
      hide Grows, PoolOk, NamesOf, ExprAt, ExprLen, CheckExpr, Slots;
      ghost var c, names := Here(), NamesOf(locals);
      count := 0;
      match es
      case NoExprs => NothingGrows(c);
      case MoreExprs(head, tail) =>
        Expression(head);
        if hadError { return; }
        ghost var c1 := Here();
        count := Expressions(tail);
        if hadError { return; }
        count := count + 1;
        ExprsLaidOut(c, c1, Here(), head, tail, names);
    }

    method BreakStatement()
      requires Valid() && !hadError
      modifies this
      ensures hadError <==> old(Checked(Break)).None?
      ensures !hadError ==> Restored() && Consts() == old(Checked(Break)).value && Emitted(Break)
      decreases Break, 0
    {
      hide Grows, NamesOf, StmtAt, StmtLen, Extra, Shallow, PoolOk, Nested;
      ghost var c := Here();
      if loops == [] {
        hadError := true;
        return;
      }
      DiscardLoopLocals();
      var _ := EmitJump(OP_BREAK);
      BreakLaidOut(c, Here(), NamesOf(locals), Around());
      GrowsLen(c, Here(), StmtLen(Break, Extra(NamesOf(locals), Around())));
    }

    method ContinueStatement()
      requires Valid() && !hadError
      modifies this
      ensures hadError <==> old(Checked(Continue)).None?
      ensures !hadError ==> Restored() && Consts() == old(Checked(Continue)).value && Emitted(Continue)
      decreases Continue, 0
    {
      hide Grows, NamesOf, StmtAt, StmtLen, Extra, Shallow, PoolOk, Nested;
      ghost var c, names, t := Here(), NamesOf(locals), Around();
      if loops == [] {
        hadError := true;
        return;
      }
      DiscardLoopLocals();
      ghost var c1 := Here();
      EmitLoop(loops[|loops| - 1].start);
      if hadError { return; }
      LoopGrows(c1, Here());
      ContinueLaidOut(c, c1, Here(), names, t);
      GrowsLen(c, Here(), StmtLen(Continue, Extra(names, t)));
    }

    // ---- programs ----

    /** A whole program: its items at top level, then `return nil`. */
    method Program(program: Items)
      requires Valid() && !hadError && code == [] && scopeDepth == 0 && loops == [] && |locals| == 1
      modifies this
      ensures hadError <==> CheckItems(program, old(locals), 0, NoLoop, 0, old(Consts())).None?
      ensures !hadError ==> ProgramAt(Here(), program)
    {
      hide Grows, PoolOk, NamesOf, Nested, CheckItems, ItemsAt, ItemsLen, Slots, ScopeAll;
      ghost var c := Here();
      assert NamesOf(locals) == [];
      Items(program);
      if hadError { return; }
      ghost var c1 := Here();
      GrowsLen(c, c1, ItemsLen(program, true, 0));
      EmitBytes(OP_NIL, OP_RETURN);
      GrowsBytes(c1, Here(), [OP_NIL, OP_RETURN]);
      GrowItems(c1, Here(), 2, program, true, [], NoLoop, 0);
    }
  }

  /** Compiles a program, or reports that it breaks a rule or a limit. */
  method Compile(program: Items) returns (r: Option<Chunk>)
    ensures r.None? <==> CheckItems(program, [Local("", 0, false)], 0, NoLoop, 0, Pool([], map[], {})).None?
    ensures r.Some? ==> ProgramAt(r.value, program)
    ensures r.Some? ==> Acceptance.Proper(program)
    ensures Acceptance.Proper(program) && ItemsLen(program, true, 0) <= 65535 ==> r.Some?
  {
    Acceptance.AcceptedIff(program);
    var compiler := new Compiler();
    compiler.Program(program);
    if compiler.hadError { return None; }
    r := Some(Chunk(compiler.code, compiler.constants));
  }
}
