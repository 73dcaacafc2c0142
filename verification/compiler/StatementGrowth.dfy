/** The same for statements: what the emissions of each statement amount to once its jumps, and for a
    loop its breaks, have been patched. */
module StatementGrowth {
  import opened Options
  import opened Values
  import opened Language
  import opened Bytecode
  import opened Layout
  import opened Patching
  import opened CodeGrowth

  lemma KeepStmt(c: Chunk, d: Chunk, s: Stmt, names: seq<string>, t: Target, p: nat)
    requires StmtAt(c, s, names, t, p) && Base(t) <= |names|
    requires Kept(c.code, d.code, p, p + StmtLen(s, Extra(names, t))) && Grown(c, d)
    ensures StmtAt(d, s, names, t, p)
  {
    hide StmtAt, Grown, StmtLen;
    CarryStmt(c, d, s, names, t, p, p, p + StmtLen(s, Extra(names, t)), None);
  }

  lemma GrowStmt(c: Chunk, d: Chunk, n: nat, s: Stmt, names: seq<string>, t: Target, p: nat)
    requires StmtAt(c, s, names, t, p) && Base(t) <= |names| && Grows(c, d, n)
    requires p + StmtLen(s, Extra(names, t)) <= |c.code|
    ensures StmtAt(d, s, names, t, p)
  {
    hide StmtAt, Grown, StmtLen;
    KeepStmt(c, d, s, names, t, p);
  }

  lemma GrowItems(c: Chunk, d: Chunk, n: nat, items: Items, global: bool, names: seq<string>, t: Target, p: nat)
    requires ItemsAt(c, items, global, names, t, p) && Base(t) <= |names| && Grows(c, d, n)
    requires p + ItemsLen(items, global, Extra(names, t)) <= |c.code|
    ensures ItemsAt(d, items, global, names, t, p)
  {
    hide ItemsAt, Grown, ItemsLen;
    CarryItems(c, d, items, global, names, t, p, p, p + ItemsLen(items, global, Extra(names, t)), None);
  }

  function Pops(n: nat): (r: seq<Byte>)
    ensures |r| == n
  {
    seq(n, i => OP_POP)
  }

  lemma PopsMore(n: nat)
    ensures Pops(n) + [OP_POP] == Pops(n + 1)
  {
  }

  /** A run of pops. */
  lemma PopsLaidOut(c: Chunk, d: Chunk, n: nat)
    requires d == Chunk(c.code + Pops(n), c.constants)
    ensures Grows(c, d, n) && PopsAt(d.code, |c.code|, n)
  {
    GrowsBytes(c, d, Pops(n));
  }

  lemma EvaluateLaidOut(c: Chunk, c1: Chunk, d: Chunk, e: Expr, names: seq<string>, t: Target)
    requires Grows(c, c1, ExprLen(e)) && ExprAt(c1, e, names, |c.code|)
    requires d == Chunk(c1.code + [OP_POP], c1.constants)
    ensures Grows(c, d, StmtLen(Evaluate(e), Extra(names, t))) && StmtAt(d, Evaluate(e), names, t, |c.code|)
  {
    hide Kept, Grown, ExprAt, ExprLen;
    GrowsBytes(c1, d, [OP_POP]);
    GrowsOn(c, c1, d, ExprLen(e), 1);
    GrowExpr(c1, d, 1, e, names, |c.code|);
  }

  lemma BlockLaidOut(c: Chunk, c1: Chunk, d: Chunk, items: Items, names: seq<string>, t: Target)
    requires Grows(c, c1, ItemsLen(items, false, Extra(names, t))) && ItemsAt(c1, items, false, names, t, |c.code|)
    requires d == Chunk(c1.code + Pops(Declared(items)), c1.constants) && Base(t) <= |names|
    ensures Grows(c, d, StmtLen(Block(items), Extra(names, t))) && StmtAt(d, Block(items), names, t, |c.code|)
  {
    hide Kept, Grown, ItemsAt, ItemsLen, PopsAt;
    PopsLaidOut(c1, d, Declared(items));
    GrowsOn(c, c1, d, ItemsLen(items, false, Extra(names, t)), Declared(items));
    GrowItems(c1, d, Declared(items), items, false, names, t, |c.code|);
  }

  lemma IfLaidOut(c: Chunk, c1: Chunk, c2: Chunk, c3: Chunk, c4: Chunk, c5: Chunk, c6: Chunk, c7: Chunk, d: Chunk,
                  x: Expr, yes: Stmt, no: Option<Stmt>, names: seq<string>, t: Target)
    requires Base(t) <= |names|
    requires Grows(c, c1, ExprLen(x)) && ExprAt(c1, x, names, |c.code|)
    requires c2 == Chunk(c1.code + [OP_JUMP_IF_FALSE, 255, 255] + [OP_POP], c1.constants)
    requires Grows(c2, c3, StmtLen(yes, Extra(names, t))) && StmtAt(c3, yes, names, t, |c2.code|)
    requires c4 == Chunk(c3.code + [OP_JUMP, 255, 255], c3.constants)
    requires Aimed(c4, c5, |c1.code| + 1) && c6 == Chunk(c5.code + [OP_POP], c5.constants)
    requires Grows(c6, c7, if no.Some? then StmtLen(no.value, Extra(names, t)) else 0)
    requires no.Some? ==> StmtAt(c7, no.value, names, t, |c6.code|)
    requires Aimed(c7, d, |c3.code| + 1)
    ensures Grows(c, d, StmtLen(If(x, yes, no), Extra(names, t))) && StmtAt(d, If(x, yes, no), names, t, |c.code|)
  {
    hide Kept, Grown, Aimed, Short, ExprAt, ExprLen, At, StmtLen, StmtAt, Extra, Base;
    var q := |c1.code|;
    var a := StmtLen(yes, Extra(names, t));
    var b := if no.Some? then StmtLen(no.value, Extra(names, t)) else 0;
    PoppedBranch(c1, c2, c3, c4, c5, c6, c7, d, a, b);
    GrowsOn(c, c1, d, ExprLen(x), a + b + 8);
    GrowExpr(c1, d, a + b + 8, x, names, |c.code|);
    KeepStmt(c3, d, yes, names, t, q + 4);
    if no.Some? { KeepStmt(c7, d, no.value, names, t, q + 4 + a + 4); }
    IfParts(d, x, yes, no, names, t, |c.code|);
  }

  lemma IfParts(ch: Chunk, x: Expr, yes: Stmt, no: Option<Stmt>, names: seq<string>, t: Target, p: nat)
    requires var q := p + ExprLen(x);
             var a := StmtLen(yes, Extra(names, t));
             var b := if no.Some? then StmtLen(no.value, Extra(names, t)) else 0;
             var m := q + 4 + a;
             && ExprAt(ch, x, names, p)
             && At(ch.code, q, JumpIfFalse(a + 4)) && At(ch.code, q + 3, Pop)
             && StmtAt(ch, yes, names, t, q + 4)
             && At(ch.code, m, Jump(1 + b)) && At(ch.code, m + 3, Pop)
             && (no.Some? ==> StmtAt(ch, no.value, names, t, m + 4))
    ensures StmtAt(ch, If(x, yes, no), names, t, p)
    ensures StmtLen(If(x, yes, no), Extra(names, t)) ==
            ExprLen(x) + 4 + StmtLen(yes, Extra(names, t)) + 4 + if no.Some? then StmtLen(no.value, Extra(names, t)) else 0
  {
    hide At, ExprAt, ExprLen, Extra;
  }

  // ---- loops ----

  /** The break scan, from the start `b` of the loop body to the end of the code. */
  predicate BreaksPatched(c: Chunk, d: Chunk, b: nat) {
    d == Chunk(PatchFrom(c.code, map[], b, |c.code|), c.constants)
  }

  /** The jump distance at `operand` filled in so that the jump leads to the end of the code. */
  function AimHere(c: Chunk, operand: nat): (d: Chunk)
    requires operand + 2 <= |c.code|
    ensures |d.code| == |c.code| && d.constants == c.constants
  {
    var jump := |c.code| - operand - 2;
    Chunk(c.code[operand := Hi(jump)][operand + 1 := Lo(jump)], c.constants)
  }

  lemma AimHereAims(c: Chunk, operand: nat)
    requires operand + 2 <= |c.code| <= operand + 2 + 65535
    ensures Aimed(c, AimHere(c, operand), operand)
  {
    var jump := |c.code| - operand - 2;
    assert jump / 256 < 256 && jump / 256 * 256 + jump % 256 == jump;
  }

  /** The end of a loop before its breaks are patched; `end` is -1 if there is no exit jump. */
  function Exited(c: Chunk, end: int): Chunk
    requires end == -1 || 0 <= end <= |c.code| - 2
  {
    if end == -1 then c else Chunk(AimHere(c, end).code + [OP_POP], c.constants)
  }

  /** Patching the breaks of a loop whose body is at `b`: they now jump to the end of the code, the
      backward jump (and the pop of the condition) behind the body are as before, and so is
      everything in front of the body. */
  lemma LoopClosed(c: Chunk, d: Chunk, body: Stmt, names: seq<string>, back: nat, b: nat, offset: nat, tested: bool)
    requires var m := b + StmtLen(body, 0);
             && StmtAt(c, body, names, InLoop(back, |names|, None), b)
             && At(c.code, m, Loop(offset)) && (tested ==> At(c.code, m + 3, Pop))
             && |c.code| == m + 3 + (if tested then 1 else 0) && |c.code| - b <= 65538
    requires BreaksPatched(c, d, b)
    ensures var m := b + StmtLen(body, 0);
            && StmtAt(d, body, names, InLoop(back, |names|, Some(|c.code|)), b)
            && At(d.code, m, Loop(offset)) && (tested ==> At(d.code, m + 3, Pop))
            && |d.code| == |c.code| && Kept(c.code, d.code, 0, b) && Grown(c, d)
  {
    hide At, StmtAt, StmtLen, PatchFrom, Patched, Stream, Width;
    var m := b + StmtLen(body, 0);
    var exit := |c.code|;
    var t := InLoop(back, |names|, None);
    assert Extra(names, t) == 0;
    LoopStream(c, body, names, back, b, offset, tested);
    ScanPatches(c.code, map[], b, exit);
    PatchKeepsPrefix(c.code, map[], b, exit);
    NoSteps(c.code, b);
    CarryStmt(c, d, body, names, t, b, b, exit, Some(exit));
    CarryInstr(c.code, d.code, m, b, exit, Some(exit), Loop(offset));
    if tested { CarryInstr(c.code, d.code, m + 3, b, exit, Some(exit), Pop); }
  }

  lemma NoSteps(code: seq<Byte>, b: nat)
    ensures Stream(code, map[], b, b)
  {
  }

  /** From the loop body to the end of the code there are only whole instructions. */
  lemma LoopStream(c: Chunk, body: Stmt, names: seq<string>, back: nat, b: nat, offset: nat, tested: bool)
    requires var m := b + StmtLen(body, 0);
             && StmtAt(c, body, names, InLoop(back, |names|, None), b)
             && At(c.code, m, Loop(offset)) && (tested ==> At(c.code, m + 3, Pop))
             && |c.code| == m + 3 + (if tested then 1 else 0)
    ensures Stream(c.code, map[], b, |c.code|)
  {
    hide At, StmtAt, StmtLen, Stream, Width, Patched;
    var m := b + StmtLen(body, 0);
    NoSteps(c.code, b);
    CarryStmt(c, c, body, names, InLoop(back, |names|, None), b, b, |c.code|, None);
    CarryInstr(c.code, c.code, m, b, |c.code|, None, Loop(offset));
    if tested { CarryInstr(c.code, c.code, m + 3, b, |c.code|, None, Pop); }
  }

  predicate Popped(c: Chunk, d: Chunk) {
    d == Chunk(c.code + [OP_POP], c.constants)
  }

  /** The end of a loop with an exit jump (`operand` is its distance) whose body starts at `b`: the
      exit jump aimed behind the backward jump, the pop of the condition, the breaks patched. */
  predicate Closed(c: Chunk, c1: Chunk, c2: Chunk, d: Chunk, operand: nat, b: nat) {
    && Aimed(c, c1, operand)
    && Popped(c1, c2)
    && BreaksPatched(c2, d, b)
  }

  /** An exit jump with its placeholder, and the pop of the condition behind it. */
  function WithTest(c: Chunk): Chunk {
    Chunk(c.code + [OP_JUMP_IF_FALSE, 255, 255] + [OP_POP], c.constants)
  }

  function WithJump(c: Chunk): Chunk {
    Chunk(c.code + [OP_JUMP_IF_FALSE, 255, 255], c.constants)
  }

  lemma ExitLaidOut(c: Chunk, d: Chunk, e: Chunk, f: Chunk, len: nat)
    requires Grows(WithJump(c), d, len) && Aimed(d, e, |c.code| + 1) && Popped(e, f)
    ensures Grows(c, f, 4 + len) && At(f.code, |c.code|, JumpIfFalse(len)) && |f.code| == |d.code| + 1
  {
    hide Kept, Grown, Aimed, At;
    JumpLaidOut(c, d, e, OP_JUMP_IF_FALSE, len);
    GrowsBytes(e, f, [OP_POP]);
    GrowsOn(c, e, f, 3 + len, 1);
    GrowInstr(e, f, 1, |c.code|, JumpIfFalse(len));
  }

  /** The part of a tested loop from its exit jump on: `c` ends before the jump, `c1` after the pop
      behind it and `gap` more bytes, `c2` after the body and `c3` after the backward jump. */
  lemma TestedLoopLaidOut(c: Chunk, c1: Chunk, c2: Chunk, c3: Chunk, c4: Chunk, c5: Chunk, d: Chunk, body: Stmt,
                          names: seq<string>, back: nat, gap: nat)
    requires Grows(WithTest(c), c1, gap)
    requires Grows(c1, c2, StmtLen(body, 0)) && StmtAt(c2, body, names, InLoop(back, |names|, None), |c1.code|)
    requires back <= |c2.code| && Grows(c2, c3, 3) && At(c3.code, |c2.code|, Loop(|c2.code| + 3 - back))
    requires Closed(c3, c4, c5, d, |c.code| + 1, |c1.code|) && StmtLen(body, 0) + 4 <= 65538
    ensures var b := |c1.code|;
            var m := |c2.code|;
            && Grows(c, d, gap + StmtLen(body, 0) + 8)
            && At(d.code, |c.code|, JumpIfFalse(gap + StmtLen(body, 0) + 4)) && At(d.code, |c.code| + 3, Pop)
            && StmtAt(d, body, names, InLoop(back, |names|, Some(m + 4)), b)
            && At(d.code, m, Loop(m + 3 - back)) && At(d.code, m + 3, Pop)
            && Kept(c1.code, d.code, |c.code| + 3, b) && Grown(c1, d)
  {
    hide StmtAt, StmtLen, BreaksPatched, Extra, Short, Kept, Grown, Grows, Aimed, At, WithTest, WithJump, Popped;
    var a := StmtLen(body, 0);
    var b := |c1.code|;
    var m := |c2.code|;
    TestedExit(c, c1, c2, c3, c4, c5, gap, a);
    TestedBody(c1, c2, c3, c4, c5, d, body, names, back, |c.code| + 1);
    TestedKept(c, c1, c3, c4, c5, d, gap, a);
  }

  lemma TestedBody(c1: Chunk, c2: Chunk, c3: Chunk, c4: Chunk, c5: Chunk, d: Chunk, body: Stmt, names: seq<string>,
                   back: nat, operand: nat)
    requires Grows(c1, c2, StmtLen(body, 0)) && StmtAt(c2, body, names, InLoop(back, |names|, None), |c1.code|)
    requires back <= |c2.code| && Grows(c2, c3, 3) && At(c3.code, |c2.code|, Loop(|c2.code| + 3 - back))
    requires operand + 2 <= |c1.code| && Aimed(c3, c4, operand) && Popped(c4, c5) && BreaksPatched(c5, d, |c1.code|)
    requires |c2.code| == |c1.code| + StmtLen(body, 0) && |c5.code| == |c2.code| + 4 && StmtLen(body, 0) + 4 <= 65538
    ensures StmtAt(d, body, names, InLoop(back, |names|, Some(|c2.code| + 4)), |c1.code|)
    ensures At(d.code, |c2.code|, Loop(|c2.code| + 3 - back)) && At(d.code, |c2.code| + 3, Pop)
    ensures |d.code| == |c5.code| && Kept(c5.code, d.code, 0, |c1.code|) && Grown(c5, d)
  {
    hide StmtAt, StmtLen, BreaksPatched, Extra, Short, Kept, Grown, Grows, Aimed, At, Popped;
    BodySurvives(c1, c2, c3, c4, c5, body, names, back, operand);
    LoopClosed(c5, d, body, names, back, |c1.code|, |c2.code| + 3 - back, true);
  }

  lemma TestedExit(c: Chunk, c1: Chunk, c2: Chunk, c3: Chunk, c4: Chunk, c5: Chunk, gap: nat, a: nat)
    requires Grows(WithTest(c), c1, gap) && Grows(c1, c2, a) && Grows(c2, c3, 3)
    requires Aimed(c3, c4, |c.code| + 1) && Popped(c4, c5)
    ensures Grows(c, c5, gap + a + 8) && At(c5.code, |c.code|, JumpIfFalse(gap + a + 4)) && Grows(c1, c3, a + 3)
    ensures |c1.code| == |c.code| + gap + 4 && |c2.code| == |c1.code| + a && |c5.code| == |c2.code| + 4
  {
    hide Kept, Grown, Grows, Aimed, At, WithTest, WithJump, Popped;
    TestedOpen(c, c1, c2, c3, gap, a);
    ExitLaidOut(c, c3, c4, c5, gap + a + 4);
  }

  lemma TestedOpen(c: Chunk, c1: Chunk, c2: Chunk, c3: Chunk, gap: nat, a: nat)
    requires Grows(WithTest(c), c1, gap)
    requires Grows(c1, c2, a) && Grows(c2, c3, 3)
    ensures Grows(WithJump(c), c3, gap + a + 4)
    ensures Grows(c1, c3, a + 3)
    ensures |c1.code| == |c.code| + gap + 4 && |c2.code| == |c1.code| + a && |c3.code| == |c2.code| + 3
  {
    hide Kept, Grown;
    var j := WithJump(c);
    var k := WithTest(c);
    GrowsBytes(j, k, [OP_POP]);
    GrowsOn(j, k, c1, 1, gap);
    GrowsOn(c1, c2, c3, a, 3);
    GrowsOn(j, c1, c3, 1 + gap, a + 3);
  }

  /** The body and the backward jump survive the aiming of the exit jump. */
  lemma BodySurvives(c1: Chunk, c2: Chunk, c3: Chunk, c4: Chunk, c5: Chunk, body: Stmt, names: seq<string>, back: nat,
                     operand: nat)
    requires Grows(c1, c2, StmtLen(body, 0)) && StmtAt(c2, body, names, InLoop(back, |names|, None), |c1.code|)
    requires back <= |c2.code| && Grows(c2, c3, 3) && At(c3.code, |c2.code|, Loop(|c2.code| + 3 - back))
    requires operand + 2 <= |c1.code| && Aimed(c3, c4, operand) && Popped(c4, c5)
    ensures StmtAt(c5, body, names, InLoop(back, |names|, None), |c1.code|)
    ensures At(c5.code, |c2.code|, Loop(|c2.code| + 3 - back)) && At(c5.code, |c2.code| + 3, Pop)
  {
    hide StmtAt, StmtLen;
    KeepStmt(c2, c5, body, names, InLoop(back, |names|, None), |c1.code|);
  }

  lemma TestedKept(c: Chunk, c1: Chunk, c3: Chunk, c4: Chunk, c5: Chunk, d: Chunk, gap: nat, a: nat)
    requires Grows(WithTest(c), c1, gap)
    requires Grows(c1, c3, a + 3) && Aimed(c3, c4, |c.code| + 1) && Popped(c4, c5)
    requires Grows(c, c5, gap + a + 8) && At(c5.code, |c.code|, JumpIfFalse(gap + a + 4))
    requires |d.code| == |c5.code| && Kept(c5.code, d.code, 0, |c1.code|) && Grown(c5, d)
    ensures Grows(c, d, gap + a + 8)
    ensures At(d.code, |c.code|, JumpIfFalse(gap + a + 4)) && At(d.code, |c.code| + 3, Pop)
    ensures Kept(c1.code, d.code, |c.code| + 3, |c1.code|) && Grown(c1, d)
  {
    assert c1.code[|c.code| + 3] == OP_POP;
  }

  lemma WhileLaidOut(c: Chunk, c1: Chunk, c2: Chunk, c3: Chunk, c4: Chunk, c5: Chunk, c6: Chunk, d: Chunk,
                     test: Option<Expr>, body: Stmt, names: seq<string>, t: Target)
    requires Grows(c, c1, InitLen(test)) && InitAt(c1, test, PushTrue, names, |c.code|)
    requires c2 == Chunk(c1.code + [OP_JUMP_IF_FALSE, 255, 255] + [OP_POP], c1.constants)
    requires Grows(c2, c3, StmtLen(body, 0)) && StmtAt(c3, body, names, InLoop(|c.code|, |names|, None), |c2.code|)
    requires Grows(c3, c4, 3) && At(c4.code, |c3.code|, Loop(|c3.code| + 3 - |c.code|))
    requires Closed(c4, c5, c6, d, |c1.code| + 1, |c2.code|) && StmtLen(body, 0) + 4 <= 65538
    ensures Grows(c, d, StmtLen(While(test, body), Extra(names, t))) && StmtAt(d, While(test, body), names, t, |c.code|)
  {
    hide StmtAt, At, Kept, Grown, Grows, Closed, InitAt, InitLen, ExprAt, StmtLen, Extra;
    var a := StmtLen(body, 0);
    GrowsLen(c, c1, InitLen(test));
    GrowsLen(c2, c3, a);
    assert c2.code + [] == c2.code;
    GrowsBytes(c2, c2, []);
    TestedLoopLaidOut(c1, c2, c3, c4, c5, c6, d, body, names, |c.code|, 0);
    GrowsOn(c, c1, d, InitLen(test), a + 8);
    GrowInit(c1, d, a + 8, test, PushTrue, names, |c.code|);
    WhileParts(d, test, body, names, t, |c.code|);
  }

  lemma GrowInit(c: Chunk, d: Chunk, n: nat, init: Option<Expr>, default: Instr, names: seq<string>, p: nat)
    requires InitAt(c, init, default, names, p) && Grows(c, d, n) && p + InitLen(init) <= |c.code|
    requires default.PushNil? || default.PushTrue?
    ensures InitAt(d, init, default, names, p)
  {
    hide ExprAt, Grown, ExprLen;
    CarryInit(c, d, init, default, names, p, p, p + InitLen(init), None);
  }

  lemma WhileParts(ch: Chunk, test: Option<Expr>, body: Stmt, names: seq<string>, t: Target, p: nat)
    requires WhileAt(ch, test, body, names, p)
    ensures StmtAt(ch, While(test, body), names, t, p)
    ensures StmtLen(While(test, body), Extra(names, t)) == InitLen(test) + StmtLen(body, 0) + 8
  {
    hide WhileAt, InitLen;
  }

  // ---- for ----

  lemma StepLaidOut(c: Chunk, c1: Chunk, c2: Chunk, c3: Chunk, c4: Chunk, d: Chunk, step: Expr, names: seq<string>, p: nat)
    requires c1 == Chunk(c.code + [OP_JUMP, 255, 255], c.constants)
    requires Grows(c1, c2, ExprLen(step)) && ExprAt(c2, step, names, |c1.code|)
    requires Popped(c2, c3)
    requires p <= |c.code| && Grows(c3, c4, 3) && At(c4.code, |c3.code|, Loop(|c3.code| + 3 - p))
    requires Aimed(c4, d, |c.code| + 1)
    ensures Grows(c, d, ExprLen(step) + 7) && StepAt(d, step, names, p, |c.code|)
  {
    hide Kept, Grown, Aimed, At, ExprAt, ExprLen;
    var n := ExprLen(step);
    var q := |c.code|;
    GrowsBytes(c2, c3, [OP_POP]);
    GrowsOn(c1, c2, c3, n, 1);
    GrowsOn(c1, c3, c4, n + 1, 3);
    JumpLaidOut(c, c4, d, OP_JUMP, n + 4);
    GrowsOn(c2, c3, c4, 1, 3);
    GrowExpr(c2, c4, 4, step, names, q + 3);
    AimedExpr(c4, d, q + 1, step, names, q + 3);
    PopIs(c3, q + 3 + n);
    GrowInstr(c3, c4, 3, q + 3 + n, Pop);
    AimedInstr(c4, d, q + 1, q + 3 + n, Pop);
    AimedInstr(c4, d, q + 1, q + 4 + n, Loop(q + 7 + n - p));
  }

  lemma KeepStep(c: Chunk, d: Chunk, step: Expr, names: seq<string>, p: nat, q: nat)
    requires StepAt(c, step, names, p, q) && Kept(c.code, d.code, q, q + ExprLen(step) + 7) && Grown(c, d)
    ensures StepAt(d, step, names, p, q)
  {
    hide ExprAt, ExprLen;
    KeepExpr(c, d, step, names, q + 3);
  }

  /** A `for` with a test: `c1` after the test, `c2` after the pop behind its jump, `c3` after the
      step, `c4` after the body, `c5` after the backward jump. */
  lemma TestedForLaidOut(c: Chunk, c1: Chunk, c2: Chunk, c3: Chunk, c4: Chunk, c5: Chunk, c6: Chunk, c7: Chunk, d: Chunk,
                         test: Expr, step: Option<Expr>, body: Stmt, names: seq<string>)
    requires var back := if step.Some? then |c2.code| + 3 else |c.code|;
             && Grows(c, c1, ExprLen(test)) && ExprAt(c1, test, names, |c.code|)
             && c2 == WithTest(c1)
             && Grows(c2, c3, StepLen(step))
             && (step.Some? ==> StepAt(c3, step.value, names, |c.code|, |c2.code|))
             && Grows(c3, c4, StmtLen(body, 0)) && StmtAt(c4, body, names, InLoop(back, |names|, None), |c3.code|)
             && Grows(c4, c5, 3) && At(c5.code, |c4.code|, Loop(|c4.code| + 3 - back))
             && Closed(c5, c6, c7, d, |c1.code| + 1, |c3.code|) && StmtLen(body, 0) + 4 <= 65538
    ensures Grows(c, d, ForLen(Some(test), step, body)) && ForAt(d, Some(test), step, body, names, |c.code|)
  {
    hide StmtAt, StmtLen, ExprLen, At, Kept, Grown, Closed, ExprAt, StepAt, WithTest;
    var back := if step.Some? then |c2.code| + 3 else |c.code|;
    var n := StepLen(step);
    var a := StmtLen(body, 0);
    WithTestLen(c1);
    TestedLoopLaidOut(c1, c3, c4, c5, c6, c7, d, body, names, back, n);
    GrowsOn(c, c1, d, ExprLen(test), n + a + 8);
    GrowExpr(c1, d, n + a + 8, test, names, |c.code|);
    if step.Some? { KeepStepIn(c3, d, step.value, names, |c.code|, |c1.code| + 3, |c2.code|); }
    ForParts(d, Some(test), step, body, names, |c.code|);
  }

  lemma WithTestLen(c: Chunk)
    ensures |WithTest(c).code| == |c.code| + 4
  {
  }

  lemma KeepStepIn(c: Chunk, d: Chunk, step: Expr, names: seq<string>, p: nat, i: nat, q: nat)
    requires StepAt(c, step, names, p, q) && Kept(c.code, d.code, i, |c.code|) && Grown(c, d)
    requires i <= q && q + ExprLen(step) + 7 == |c.code|
    ensures StepAt(d, step, names, p, q)
  {
    hide StepAt, Grown, ExprLen;
    KeepStep(c, d, step, names, p, q);
  }

  /** A `for` without a test has no exit jump; only breaks leave it. */
  lemma UntestedForLaidOut(c: Chunk, c1: Chunk, c2: Chunk, c3: Chunk, d: Chunk, step: Option<Expr>, body: Stmt,
                           names: seq<string>)
    requires var back := if step.Some? then |c.code| + 3 else |c.code|;
             && Grows(c, c1, StepLen(step))
             && (step.Some? ==> StepAt(c1, step.value, names, |c.code|, |c.code|))
             && Grows(c1, c2, StmtLen(body, 0)) && StmtAt(c2, body, names, InLoop(back, |names|, None), |c1.code|)
             && Grows(c2, c3, 3) && At(c3.code, |c2.code|, Loop(|c2.code| + 3 - back))
             && BreaksPatched(c3, d, |c1.code|) && StmtLen(body, 0) + 3 <= 65538
    ensures Grows(c, d, ForLen(None, step, body)) && ForAt(d, None, step, body, names, |c.code|)
  {
    hide StmtAt, StmtLen, ExprLen, At, BreaksPatched, ExprAt, StepAt, Grows, Kept, Grown;
    var back := if step.Some? then |c.code| + 3 else |c.code|;
    GrowsLen(c, c1, StepLen(step));
    GrowsLen(c1, c2, StmtLen(body, 0));
    GrowsLen(c2, c3, 3);
    GrowStmt(c2, c3, 3, body, names, InLoop(back, |names|, None), |c1.code|);
    LoopClosed(c3, d, body, names, back, |c1.code|, |c2.code| + 3 - back, false);
    UntestedKept(c, c1, c2, c3, d, StepLen(step), StmtLen(body, 0));
    if step.Some? { KeepStepIn(c1, d, step.value, names, |c.code|, 0, |c.code|); }
    ForParts(d, None, step, body, names, |c.code|);
  }

  lemma UntestedKept(c: Chunk, c1: Chunk, c2: Chunk, c3: Chunk, d: Chunk, n: nat, a: nat)
    requires Grows(c, c1, n) && Grows(c1, c2, a) && Grows(c2, c3, 3)
    requires |d.code| == |c3.code| && Kept(c3.code, d.code, 0, |c1.code|) && Grown(c3, d)
    ensures Grows(c, d, n + a + 3) && Kept(c1.code, d.code, 0, |c1.code|) && Grown(c1, d)
  {
  }

  /** Both kinds of `for`, behind the initialiser. */
  lemma ForLoopLaidOut(c: Chunk, c1: Chunk, c2: Chunk, c3: Chunk, c4: Chunk, c5: Chunk, d: Chunk, end: int, back: nat,
                       test: Option<Expr>, step: Option<Expr>, body: Stmt, names: seq<string>)
    requires if test.Some? then
               && Grows(c, c1, ExprLen(test.value)) && ExprAt(c1, test.value, names, |c.code|)
               && c2 == WithTest(c1) && end == |c1.code| + 1 && 0 <= end <= |c5.code| - 2
               && Aimed(c5, AimHere(c5, end), end) && Popped(AimHere(c5, end), Exited(c5, end))
             else c2 == c && end == -1
    requires Grows(c2, c3, StepLen(step)) && (step.Some? ==> StepAt(c3, step.value, names, |c.code|, |c2.code|))
    requires back == if step.Some? then |c2.code| + 3 else |c.code|
    requires Grows(c3, c4, StmtLen(body, 0)) && StmtAt(c4, body, names, InLoop(back, |names|, None), |c3.code|)
    requires Grows(c4, c5, 3) && At(c5.code, |c4.code|, Loop(|c4.code| + 3 - back))
    requires BreaksPatched(Exited(c5, end), d, |c3.code|) && StmtLen(body, 0) + 4 <= 65538
    ensures Grows(c, d, ForLen(test, step, body)) && ForAt(d, test, step, body, names, |c.code|)
  {
    hide Grows, ExprAt, ExprLen, WithTest, Aimed, AimHere, Popped, StepLen, StepAt, StmtAt, StmtLen, At, BreaksPatched, ForAt, ForLen;
    if test.Some? {
      TestedForLaidOut(c, c1, c2, c3, c4, c5, AimHere(c5, end), Exited(c5, end), d, test.value, step, body, names);
    } else {
      UntestedForLaidOut(c, c3, c4, c5, d, step, body, names);
    }
  }

  lemma ForStatementLaidOut(c: Chunk, c1: Chunk, c2: Chunk, d: Chunk, s: Stmt, names: seq<string>, t: Target)
    requires s.For? && Base(t) <= |names|
    requires Grows(c, c1, ItemsLen(s.init, false, Extra(names, t))) && ItemsAt(c1, s.init, false, names, t, |c.code|)
    requires Grows(c1, c2, ForLen(s.test, s.step, s.body))
    requires ForAt(c2, s.test, s.step, s.body, ExtendAll(names, s.init, false), |c1.code|)
    requires d == Chunk(c2.code + Pops(Declared(s.init)), c2.constants)
    ensures Grows(c, d, StmtLen(s, Extra(names, t))) && StmtAt(d, s, names, t, |c.code|)
  {
    hide Kept, Grown, ItemsAt, ItemsLen, PopsAt, ForAt, ForLen, Extra, Pops, ExtendAll, StmtAt, StmtLen, Declared;
    var k := ItemsLen(s.init, false, Extra(names, t));
    var n := ForLen(s.test, s.step, s.body);
    var e := Declared(s.init);
    PopsLaidOut(c2, d, e);
    GrowsOn(c1, c2, d, n, e);
    GrowsOn(c, c1, d, k, n + e);
    GrowItems(c1, d, n + e, s.init, false, names, t, |c.code|);
    GrowFor(c2, d, e, s.test, s.step, s.body, ExtendAll(names, s.init, false), |c1.code|);
    ForStatementParts(d, s, names, t, |c.code|, |c1.code|, |c2.code|);
  }

  lemma ForStatementParts(ch: Chunk, s: Stmt, names: seq<string>, t: Target, p: nat, q: nat, r: nat)
    requires s.For? && q == p + ItemsLen(s.init, false, Extra(names, t)) && r == q + ForLen(s.test, s.step, s.body)
    requires ItemsAt(ch, s.init, false, names, t, p)
    requires ForAt(ch, s.test, s.step, s.body, ExtendAll(names, s.init, false), q)
    requires PopsAt(ch.code, r, Declared(s.init))
    ensures StmtAt(ch, s, names, t, p)
    ensures StmtLen(s, Extra(names, t)) ==
            ItemsLen(s.init, false, Extra(names, t)) + ForLen(s.test, s.step, s.body) + Declared(s.init)
  {
    hide ItemsLen, TestLen, StepLen, Declared, ItemsAt, PopsAt, ForAt, Extra, ExtendAll;
  }

  lemma GrowFor(c: Chunk, d: Chunk, n: nat, test: Option<Expr>, step: Option<Expr>, body: Stmt, names: seq<string>, p: nat)
    requires ForAt(c, test, step, body, names, p) && Grows(c, d, n) && p + ForLen(test, step, body) <= |c.code|
    ensures ForAt(d, test, step, body, names, p)
  {
    hide ForAt, Grown, ForLen;
    CarryFor(c, d, test, step, body, names, p, p, p + ForLen(test, step, body), None);
  }

  /** Discarding what the loop declared, then the placeholder for the jump out of it. */
  lemma BreakLaidOut(c: Chunk, d: Chunk, names: seq<string>, t: Target)
    requires t.InLoop? && t.exit.None?
    requires d == Chunk(c.code + Pops(Extra(names, t)) + [OP_BREAK, 255, 255], c.constants)
    ensures Grows(c, d, StmtLen(Break, Extra(names, t))) && StmtAt(d, Break, names, t, |c.code|)
  {
    hide Extra;
    var c1 := Chunk(c.code + Pops(Extra(names, t)), c.constants);
    PopsLaidOut(c, c1, Extra(names, t));
    GrowsBytes(c1, d, [OP_BREAK, 255, 255]);
    GrowsOn(c, c1, d, Extra(names, t), 3);
  }

  lemma ContinueLaidOut(c: Chunk, c1: Chunk, d: Chunk, names: seq<string>, t: Target)
    requires t.InLoop? && t.start <= |c1.code|
    requires c1 == Chunk(c.code + Pops(Extra(names, t)), c.constants)
    requires Grows(c1, d, 3) && At(d.code, |c1.code|, Loop(|c1.code| + 3 - t.start))
    ensures Grows(c, d, StmtLen(Continue, Extra(names, t))) && StmtAt(d, Continue, names, t, |c.code|)
  {
    hide Extra, At;
    PopsLaidOut(c, c1, Extra(names, t));
    GrowsOn(c, c1, d, Extra(names, t), 3);
  }

  // ---- switch ----

  function WithMulti(c: Chunk, more: Exprs): Chunk {
    if more.NoExprs? then c else Chunk(c.code + [OP_MULTI_CASE, Count(more) % 256], c.constants)
  }

  function WithCompare(c: Chunk): Chunk {
    Chunk(c.code + [OP_COMPARE_JUMP, 255, 255], c.constants)
  }

  function WithSkip(c: Chunk): Chunk {
    Chunk(c.code + [OP_JUMP, 255, 255], c.constants)
  }

  function TopLen(first: Expr, more: Exprs): nat {
    ExprLen(first) + ExprsLen(more) + MultiLen(more)
  }

  /** The values of a case and, if there are several, the instruction that picks among them. */
  predicate TopAt(ch: Chunk, first: Expr, more: Exprs, names: seq<string>, p: nat) {
    && ExprAt(ch, first, names, p)
    && ExprsAt(ch, more, names, p + ExprLen(first))
    && (more.MoreExprs? ==> At(ch.code, p + ExprLen(first) + ExprsLen(more), MultiCase(Count(more) % 256)))
  }

  lemma TopLaidOut(c: Chunk, c1: Chunk, c2: Chunk, c3: Chunk, first: Expr, more: Exprs, names: seq<string>)
    requires Grows(c, c1, ExprLen(first)) && ExprAt(c1, first, names, |c.code|)
    requires Grows(c1, c2, ExprsLen(more)) && ExprsAt(c2, more, names, |c1.code|) && c3 == WithMulti(c2, more)
    ensures Grows(c, c3, TopLen(first, more)) && TopAt(c3, first, more, names, |c.code|)
  {
    hide ExprLen, ExprsLen, ExprAt, ExprsAt, Kept, Grown;
    if more.NoExprs? {
      assert c2.code + [] == c2.code;
      GrowsBytes(c2, c3, []);
    } else {
      GrowsBytes(c2, c3, [OP_MULTI_CASE, Count(more) % 256]);
    }
    GrowsOn(c1, c2, c3, ExprsLen(more), MultiLen(more));
    GrowsOn(c, c1, c3, ExprLen(first), ExprsLen(more) + MultiLen(more));
    GrowExpr(c1, c3, ExprsLen(more) + MultiLen(more), first, names, |c.code|);
    GrowExprs(c2, c3, MultiLen(more), more, names, |c1.code|);
  }

  lemma ExprsLaidOut(c: Chunk, c1: Chunk, d: Chunk, head: Expr, tail: Exprs, names: seq<string>)
    requires Grows(c, c1, ExprLen(head)) && ExprAt(c1, head, names, |c.code|)
    requires Grows(c1, d, ExprsLen(tail)) && ExprsAt(d, tail, names, |c1.code|)
    ensures Grows(c, d, ExprsLen(MoreExprs(head, tail))) && ExprsAt(d, MoreExprs(head, tail), names, |c.code|)
  {
    hide Kept, Grown, ExprAt, ExprLen;
    GrowsOn(c, c1, d, ExprLen(head), ExprsLen(tail));
    GrowExpr(c1, d, ExprsLen(tail), head, names, |c.code|);
  }

  lemma GrowTop(c: Chunk, d: Chunk, n: nat, first: Expr, more: Exprs, names: seq<string>, p: nat)
    requires TopAt(c, first, more, names, p) && Grows(c, d, n) && p + TopLen(first, more) <= |c.code|
    ensures TopAt(d, first, more, names, p)
  {
    hide ExprLen, ExprsLen, ExprAt, ExprsAt, Kept, Grown, At;
    GrowExpr(c, d, n, first, names, p);
    GrowExprs(c, d, n, more, names, p + ExprLen(first));
    if more.MoreExprs? { GrowInstr(c, d, n, p + ExprLen(first) + ExprsLen(more), MultiCase(Count(more) % 256)); }
  }

  /** One case at `p` with its comparison at `j`, the jump behind its body at `m` and the rest at `r`. */
  predicate CaseAt(ch: Chunk, first: Expr, more: Exprs, body: Stmt, rest: Cases, names: seq<string>,
                   t: Target, p: nat, j: nat, m: nat, r: nat, end: nat)
  {
    && TopAt(ch, first, more, names, p) && j == p + TopLen(first, more)
    && At(ch.code, j, CompareJump(StmtLen(body, Extra(names, t)) + 3))
    && StmtAt(ch, body, names, t, j + 3) && m == j + 3 + StmtLen(body, Extra(names, t))
    && At(ch.code, m, Jump(CasesLen(rest, Extra(names, t)))) && r == m + 3
    && CasesAt(ch, rest, names, t, r, end) && end == r + CasesLen(rest, Extra(names, t))
  }

  /** One case: `c1` after its values, `c2` after the comparison, `c3` after the body, `c4` after the
      jump to the end, `c5` with the comparison aimed, `c6` after all other cases. */
  lemma CaseLaidOut(c: Chunk, c1: Chunk, c2: Chunk, c3: Chunk, c4: Chunk, c5: Chunk, c6: Chunk, d: Chunk, first: Expr,
                    more: Exprs, body: Stmt, rest: Cases, names: seq<string>, t: Target)
    requires Base(t) <= |names|
    requires Grows(c, c1, TopLen(first, more)) && TopAt(c1, first, more, names, |c.code|)
    requires c2 == WithCompare(c1)
    requires Grows(c2, c3, StmtLen(body, Extra(names, t))) && StmtAt(c3, body, names, t, |c2.code|)
    requires c4 == WithSkip(c3) && Aimed(c4, c5, |c1.code| + 1)
    requires Grows(c5, c6, CasesLen(rest, Extra(names, t)))
    requires CasesAt(c6, rest, names, t, |c5.code|, |c6.code|) && Aimed(c6, d, |c3.code| + 1)
    ensures Grows(c, d, TopLen(first, more) + StmtLen(body, Extra(names, t)) + CasesLen(rest, Extra(names, t)) + 6)
    ensures CaseAt(d, first, more, body, rest, names, t, |c.code|, |c1.code|, |c3.code|, |c5.code|, |d.code|)
  {
    hide Grows, Kept, Grown, Aimed, TopAt, StmtAt, CasesAt, TopLen, StmtLen, CasesLen, Extra, At, WithCompare, WithSkip, Base, ExprAt, ExprsAt;
    var a := StmtLen(body, Extra(names, t));
    var b := CasesLen(rest, Extra(names, t));
    GrowsLen(c, c1, TopLen(first, more));
    GrowsLen(c5, c6, b);
    CaseBranch'(c1, c2, c3, c4, c5, c6, d, a, b);
    GrowsOn(c, c1, d, TopLen(first, more), a + b + 6);
    GrowTop(c1, d, a + b + 6, first, more, names, |c.code|);
    KeepStmt(c3, d, body, names, t, |c1.code| + 3);
    KeepCases(c6, d, rest, names, t, |c5.code|, |c6.code|);
  }

  lemma CaseBranch'(c: Chunk, k: Chunk, c1: Chunk, c2: Chunk, c3: Chunk, c4: Chunk, d: Chunk, a: nat, b: nat)
    requires k == WithCompare(c) && Grows(k, c1, a)
    requires c2 == WithSkip(c1)
    requires Aimed(c2, c3, |c.code| + 1)
    requires Grows(c3, c4, b) && Aimed(c4, d, |c1.code| + 1)
    ensures var m := |c.code| + 3 + a;
            && Grows(c, d, a + b + 6) && |k.code| == |c.code| + 3 && |c3.code| == m + 3 && |c4.code| == m + 3 + b
            && At(d.code, |c.code|, CompareJump(a + 3)) && At(d.code, |c1.code|, Jump(b)) && |c1.code| == m && |d.code| == |c4.code|
            && Kept(c1.code, d.code, |c.code| + 3, m) && Grown(c1, d)
            && Kept(c4.code, d.code, |c3.code|, |c4.code|) && Grown(c4, d)
  {
    hide Kept, Grown, At, Aimed;
    CaseBranch(c, c1, c2, c3, c4, d, a, b);
  }

  lemma KeepCases(c: Chunk, d: Chunk, cs: Cases, names: seq<string>, t: Target, p: nat, end: nat)
    requires CasesAt(c, cs, names, t, p, end) && Base(t) <= |names|
    requires Kept(c.code, d.code, p, |c.code|) && |c.code| == p + CasesLen(cs, Extra(names, t)) && Grown(c, d)
    ensures CasesAt(d, cs, names, t, p, end)
  {
    hide CasesAt, Grown, CasesLen;
    CarryCases(c, d, cs, names, t, p, end, p, p + CasesLen(cs, Extra(names, t)), None);
  }

  lemma CaseParts(ch: Chunk, cs: Cases, names: seq<string>, t: Target, p: nat, j: nat, m: nat, r: nat, end: nat)
    requires cs.MoreCases? && CaseAt(ch, cs.first, cs.more, cs.body, cs.rest, names, t, p, j, m, r, end)
    ensures CasesAt(ch, cs, names, t, p, end)
    ensures CasesLen(cs, Extra(names, t)) == end - p
    ensures CasesLen(cs, Extra(names, t)) ==
            TopLen(cs.first, cs.more) + StmtLen(cs.body, Extra(names, t)) + CasesLen(cs.rest, Extra(names, t)) + 6
  {
    hide ExprAt, ExprsAt, StmtAt, ExprLen, ExprsLen, StmtLen, Extra, At, MultiLen;
  }

  lemma OtherwiseLaidOut(c: Chunk, c1: Chunk, d: Chunk, default: Option<Stmt>, names: seq<string>, t: Target)
    requires Popped(c, c1)
    requires Grows(c1, d, if default.Some? then StmtLen(default.value, Extra(names, t)) else 0)
    requires default.Some? ==> StmtAt(d, default.value, names, t, |c1.code|)
    ensures Grows(c, d, CasesLen(Otherwise(default), Extra(names, t)))
    ensures CasesAt(d, Otherwise(default), names, t, |c.code|, |d.code|)
  {
    hide Kept, Grown, StmtAt, StmtLen, Extra;
    var n := if default.Some? then StmtLen(default.value, Extra(names, t)) else 0;
    GrowsBytes(c, c1, [OP_POP]);
    GrowsOn(c, c1, d, 1, n);
    PopIs(c1, |c.code|);
    GrowInstr(c1, d, n, |c.code|, Pop);
  }

  lemma SwitchLaidOut(c: Chunk, c1: Chunk, d: Chunk, subject: Expr, cases: Cases, names: seq<string>, t: Target)
    requires Grows(c, c1, ExprLen(subject)) && ExprAt(c1, subject, names, |c.code|)
    requires Grows(c1, d, CasesLen(cases, Extra(names, t))) && CasesAt(d, cases, names, t, |c1.code|, |d.code|)
    ensures Grows(c, d, StmtLen(Switch(subject, cases), Extra(names, t)))
    ensures StmtAt(d, Switch(subject, cases), names, t, |c.code|)
  {
    hide Kept, Grown, ExprAt, ExprLen, CasesAt, CasesLen, Extra;
    GrowsOn(c, c1, d, ExprLen(subject), CasesLen(cases, Extra(names, t)));
    GrowExpr(c1, d, CasesLen(cases, Extra(names, t)), subject, names, |c.code|);
  }

  // ---- items ----

  lemma ItemsLaidOut(c: Chunk, c1: Chunk, d: Chunk, head: Item, tail: Items, global: bool, names: seq<string>, t: Target)
    requires Base(t) <= |names|
    requires Grows(c, c1, ItemLen(head, global, Extra(names, t))) && ItemAt(c1, head, global, names, t, |c.code|)
    requires var names1 := Extend(names, head, global);
             && Grows(c1, d, ItemsLen(tail, global, Extra(names1, t)))
             && ItemsAt(d, tail, global, names1, t, |c1.code|)
    ensures Grows(c, d, ItemsLen(MoreItems(head, tail), global, Extra(names, t)))
    ensures ItemsAt(d, MoreItems(head, tail), global, names, t, |c.code|)
  {
    hide Kept, Grown, ItemAt, ItemLen;
    var n := ItemsLen(tail, global, Extra(Extend(names, head, global), t));
    GrowsOn(c, c1, d, ItemLen(head, global, Extra(names, t)), n);
    GrowItem(c1, d, n, head, global, names, t, |c.code|);
  }

  lemma GrowItem(c: Chunk, d: Chunk, n: nat, item: Item, global: bool, names: seq<string>, t: Target, p: nat)
    requires ItemAt(c, item, global, names, t, p) && Base(t) <= |names| && Grows(c, d, n)
    requires p + ItemLen(item, global, Extra(names, t)) <= |c.code|
    ensures ItemAt(d, item, global, names, t, p)
  {
    hide ItemAt, Grown, ItemLen;
    CarryItem(c, d, item, global, names, t, p, p, p + ItemLen(item, global, Extra(names, t)), None);
  }

  lemma GlobalLaidOut(c: Chunk, c1: Chunk, d: Chunk, item: Item, index: Byte, names: seq<string>, t: Target)
    requires item.Declare? && Grows(c, c1, InitLen(item.init)) && InitAt(c1, item.init, PushNil, names, |c.code|)
    requires index < |c.constants| && c.constants[index] == Str(item.name)
    requires d == Chunk(c1.code + [OP_DEFINE_MODULE, index], c1.constants)
    ensures Grows(c, d, ItemLen(item, true, Extra(names, t))) && ItemAt(d, item, true, names, t, |c.code|)
  {
    hide Kept, InitAt, InitLen, Extra;
    GrowsBytes(c1, d, [OP_DEFINE_MODULE, index]);
    GrowsOn(c, c1, d, InitLen(item.init), 2);
    GrowInit(c1, d, 2, item.init, PushNil, names, |c.code|);
  }
}
