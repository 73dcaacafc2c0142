/** What a sequence of emissions and jump patches amounts to: pieces of code laid out one after
    another, each surviving what comes later. */
module CodeGrowth {
  import opened Options
  import opened Values
  import opened Language
  import opened Bytecode
  import opened Layout
  import opened Patching

  /** Code that is there already survives what is appended or patched elsewhere. */
  predicate Kept(c: seq<Byte>, d: seq<Byte>, i: nat, j: nat) {
    i <= j <= |c| <= |d| && forall k :: i <= k < j ==> d[k] == c[k]
  }

  /** `len` bytes of code and any number of constants were appended. */
  predicate Grows(c: Chunk, d: Chunk, len: nat) {
    |d.code| == |c.code| + len && Kept(c.code, d.code, 0, |c.code|) && Grown(c, d)
  }

  /** Only the jump distance at `operand` changed, and it now leads to the end of the code. */
  predicate Aimed(c: Chunk, d: Chunk, operand: nat) {
    && operand + 2 <= |c.code| == |d.code|
    && d.constants == c.constants
    && (forall k :: 0 <= k < |c.code| && k != operand && k != operand + 1 ==> d.code[k] == c.code[k])
    && Short(d.code, operand) == |c.code| - operand - 2
  }

  lemma GrowsLen(c: Chunk, d: Chunk, len: nat)
    requires Grows(c, d, len)
    ensures |d.code| == |c.code| + len
  {
  }

  lemma GrowsOn(c: Chunk, d: Chunk, e: Chunk, m: nat, n: nat)
    requires Grows(c, d, m) && Grows(d, e, n)
    ensures Grows(c, e, m + n)
  {
  }

  lemma GrowsBytes(c: Chunk, d: Chunk, bytes: seq<Byte>)
    requires d == Chunk(c.code + bytes, c.constants)
    ensures Grows(c, d, |bytes|)
  {
  }

  lemma GrowsAimed(c: Chunk, d: Chunk, e: Chunk, m: nat, operand: nat)
    requires Grows(c, d, m) && Aimed(d, e, operand) && |c.code| <= operand
    ensures Grows(c, e, m)
  {
  }

  lemma KeepExpr(c: Chunk, d: Chunk, e: Expr, names: seq<string>, p: nat)
    requires ExprAt(c, e, names, p) && Kept(c.code, d.code, p, p + ExprLen(e)) && Grown(c, d)
    ensures ExprAt(d, e, names, p)
  {
    hide ExprAt, Grown;
    CarryExpr(c, d, e, names, p, p, p + ExprLen(e), None);
  }

  /** Code survives everything that is appended behind it. */
  lemma GrowExpr(c: Chunk, d: Chunk, n: nat, e: Expr, names: seq<string>, p: nat)
    requires ExprAt(c, e, names, p) && Grows(c, d, n) && p + ExprLen(e) <= |c.code|
    ensures ExprAt(d, e, names, p)
  {
    hide ExprAt, Grown;
    KeepExpr(c, d, e, names, p);
  }

  lemma PopIs(c: Chunk, i: nat)
    requires i < |c.code| && c.code[i] == OP_POP
    ensures At(c.code, i, Pop)
  {
  }

  lemma GrowInstr(c: Chunk, d: Chunk, n: nat, i: nat, instr: Instr)
    requires At(c.code, i, instr) && Grows(c, d, n)
    ensures At(d.code, i, instr)
  {
  }

  /** Filling in a jump distance changes no other code. */
  lemma AimedExpr(c: Chunk, d: Chunk, operand: nat, e: Expr, names: seq<string>, p: nat)
    requires ExprAt(c, e, names, p) && Aimed(c, d, operand) && p + ExprLen(e) <= |c.code|
    requires operand + 2 <= p || p + ExprLen(e) <= operand
    ensures ExprAt(d, e, names, p)
  {
    hide ExprAt;
    KeepExpr(c, d, e, names, p);
  }

  lemma AimedInstr(c: Chunk, d: Chunk, operand: nat, i: nat, instr: Instr)
    requires At(c.code, i, instr) && Aimed(c, d, operand)
    requires operand + 2 <= i || i + Size(instr) <= operand
    ensures At(d.code, i, instr)
  {
  }

  /** A jump emitted with a placeholder behind `c`, more code up to `d`, and the distance filled in. */
  lemma JumpLaidOut(c: Chunk, d: Chunk, e: Chunk, op: Byte, len: nat)
    requires op == OP_JUMP || op == OP_JUMP_IF_FALSE || op == OP_COMPARE_JUMP
    requires Grows(Chunk(c.code + [op, 255, 255], c.constants), d, len) && Aimed(d, e, |c.code| + 1)
    ensures Grows(c, e, 3 + len)
    ensures At(e.code, |c.code|, if op == OP_JUMP then Jump(len) else if op == OP_COMPARE_JUMP then CompareJump(len)
                                 else JumpIfFalse(len))
  {
    var j := Chunk(c.code + [op, 255, 255], c.constants);
    assert j.code[|c.code|] == op;
    GrowsBytes(c, j, [op, 255, 255]);
    GrowsOn(c, j, d, 3, len);
    GrowsAimed(c, d, e, 3 + len, |c.code| + 1);
  }

  /** The first half of a two-way branch: a conditional jump behind `c`, `a` bytes up to `c1`, the
      jump over the alternative, and the conditional jump's distance filled in. */
  lemma ThenLaidOut(c: Chunk, c1: Chunk, c2: Chunk, c3: Chunk, c4: Chunk, a: nat, op: Byte)
    requires op == OP_JUMP_IF_FALSE || op == OP_COMPARE_JUMP
    requires Grows(Chunk(c.code + [op, 255, 255], c.constants), c1, a)
    requires c2 == Chunk(c1.code + [OP_JUMP, 255, 255], c1.constants)
    requires Aimed(c2, c3, |c.code| + 1)
    requires c4 == Chunk(c1.code[..|c.code| + 1] + c3.code[|c.code| + 1..|c.code| + 3] + c1.code[|c.code| + 3..], c1.constants)
    ensures c3 == Chunk(c4.code + [OP_JUMP, 255, 255], c4.constants) && Grows(c, c4, 3 + a)
    ensures At(c4.code, |c.code|, if op == OP_COMPARE_JUMP then CompareJump(a + 3) else JumpIfFalse(a + 3))
    ensures Kept(c1.code, c4.code, |c.code| + 3, |c1.code|)
  {
    var j := Chunk(c.code + [op, 255, 255], c.constants);
    GrowsBytes(c1, c2, [OP_JUMP, 255, 255]);
    GrowsOn(j, c1, c2, a, 3);
    JumpLaidOut(c, c2, c3, op, a + 3);
    assert c3.code == c4.code + [OP_JUMP, 255, 255];
  }

  /** A two-way branch: `a` bytes for one way (`c` to `c1`), `b` bytes for the other (`c4` to `c5`). */
  lemma BranchLaidOut(c: Chunk, c1: Chunk, c2: Chunk, c3: Chunk, c4: Chunk, c5: Chunk, d: Chunk, a: nat, b: nat)
    requires Grows(Chunk(c.code + [OP_JUMP_IF_FALSE, 255, 255], c.constants), c1, a)
    requires c2 == Chunk(c1.code + [OP_JUMP, 255, 255], c1.constants)
    requires Aimed(c2, c3, |c.code| + 1)
    requires c4 == Chunk(c3.code + [OP_POP], c3.constants)
    requires Grows(c4, c5, b) && Aimed(c5, d, |c1.code| + 1)
    ensures var m := |c.code| + 3 + a;
            && Grows(c, d, a + b + 7) && |c4.code| == m + 4
            && At(d.code, |c.code|, JumpIfFalse(a + 3)) && At(d.code, m, Jump(1 + b)) && At(d.code, m + 3, Pop)
            && Kept(c1.code, d.code, |c.code| + 3, m) && Grown(c1, d)
            && Kept(c5.code, d.code, m + 4, m + 4 + b) && Grown(c5, d)
  {
    var m := |c1.code|;
    var x := Chunk(c1.code[..|c.code| + 1] + c3.code[|c.code| + 1..|c.code| + 3] + c1.code[|c.code| + 3..], c1.constants);
    ThenLaidOut(c, c1, c2, c3, x, a, OP_JUMP_IF_FALSE);
    GrowsBytes(c3, c4, [OP_POP]);
    GrowsOn(c3, c4, c5, 1, b);
    JumpLaidOut(x, c5, d, OP_JUMP, 1 + b);
    GrowsOn(c, x, d, 3 + a, 4 + b);
    GrowInstr(x, d, 4 + b, |c.code|, JumpIfFalse(a + 3));
    assert At(c4.code, m + 3, Pop) by { PopIs(c4, m + 3); }
    hide At;
    GrowInstr(c4, c5, b, m + 3, Pop);
    AimedInstr(c5, d, m + 1, m + 3, Pop);
  }

  // ---- what the emission order amounts to: `c` before, `d` after, the others in between ----

  lemma UnaryLaidOut(c: Chunk, c1: Chunk, d: Chunk, e: Expr, e1: Expr, names: seq<string>)
    requires e == Not(e1) || e == Negate(e1)
    requires Grows(c, c1, ExprLen(e1)) && ExprAt(c1, e1, names, |c.code|)
    requires d == Chunk(c1.code + [if e.Not? then OP_NOT else OP_NEGATE], c1.constants)
    ensures Grows(c, d, ExprLen(e)) && ExprAt(d, e, names, |c.code|)
  {
    hide Grows, ExprAt, ExprLen;
    GrowsLen(c, c1, ExprLen(e1));
    GrowsBytes(c1, d, [if e.Not? then OP_NOT else OP_NEGATE]);
    GrowsOn(c, c1, d, ExprLen(e1), 1);
    GrowExpr(c1, d, 1, e1, names, |c.code|);
    UnaryIs(d, e, names, |c.code|);
  }

  lemma AssignLaidOut(c: Chunk, c1: Chunk, d: Chunk, name: Name, rhs: Expr, names: seq<string>, setOp: Byte, arg: Byte)
    requires Grows(c, c1, ExprLen(rhs)) && ExprAt(c1, rhs, names, |c.code|)
    requires d == Chunk(c1.code + [setOp, arg], c1.constants)
    requires var i := Resolve(names, name);
             if 0 <= i then setOp == OP_SET_LOCAL && arg == i + 1
             else setOp == OP_SET_MODULE && arg < |c.constants| && c.constants[arg] == Str(name)
    ensures Grows(c, d, ExprLen(Assign(name, rhs))) && ExprAt(d, Assign(name, rhs), names, |c.code|)
  {
    hide Resolve, Kept, ExprAt, ExprLen;
    AssignIs(d, name, rhs, names, |c.code|);
    GrowsBytes(c1, d, [setOp, arg]);
    GrowsOn(c, c1, d, ExprLen(rhs), 2);
    GrowExpr(c1, d, 2, rhs, names, |c.code|);
  }

  lemma BinaryLaidOut(c: Chunk, c1: Chunk, c2: Chunk, d: Chunk, op: BinaryOp, l: Expr, r: Expr, names: seq<string>)
    requires Grows(c, c1, ExprLen(l)) && ExprAt(c1, l, names, |c.code|)
    requires Grows(c1, c2, ExprLen(r)) && ExprAt(c2, r, names, |c1.code|)
    requires Grows(c2, d, OpLen(op)) && OperatorAt(d.code, op, |c2.code|)
    ensures Grows(c, d, ExprLen(Binary(op, l, r))) && ExprAt(d, Binary(op, l, r), names, |c.code|)
  {
    hide Kept, Grown, OperatorAt, OpLen, ExprAt, ExprLen;
    BinaryIs(d, op, l, r, names, |c.code|);
    GrowsOn(c1, c2, d, ExprLen(r), OpLen(op));
    GrowsOn(c, c1, d, ExprLen(l), ExprLen(r) + OpLen(op));
    GrowExpr(c1, d, ExprLen(r) + OpLen(op), l, names, |c.code|);
    GrowExpr(c2, d, OpLen(op), r, names, |c1.code|);
  }

  lemma AndLaidOut(c: Chunk, c1: Chunk, c2: Chunk, c3: Chunk, d: Chunk, l: Expr, r: Expr, names: seq<string>)
    requires Grows(c, c1, ExprLen(l)) && ExprAt(c1, l, names, |c.code|)
    requires c2 == Chunk(c1.code + [OP_JUMP_IF_FALSE, 255, 255] + [OP_POP], c1.constants)
    requires Grows(c2, c3, ExprLen(r)) && ExprAt(c3, r, names, |c2.code|)
    requires Aimed(c3, d, |c1.code| + 1)
    ensures Grows(c, d, ExprLen(And(l, r))) && ExprAt(d, And(l, r), names, |c.code|)
  {
    hide Kept, Grown, Aimed, Short, ExprAt, ExprLen, At;
    var j := Chunk(c1.code + [OP_JUMP_IF_FALSE, 255, 255], c1.constants);
    var q := |c1.code|;
    GrowsBytes(j, c2, [OP_POP]);
    GrowsOn(j, c2, c3, 1, ExprLen(r));
    JumpLaidOut(c1, c3, d, OP_JUMP_IF_FALSE, 1 + ExprLen(r));
    GrowsOn(c, c1, d, ExprLen(l), 4 + ExprLen(r));
    GrowExpr(c1, d, 4 + ExprLen(r), l, names, |c.code|);
    PopIs(c2, q + 3);
    GrowInstr(c2, c3, ExprLen(r), q + 3, Pop);
    AimedInstr(c3, d, q + 1, q + 3, Pop);
    AimedExpr(c3, d, q + 1, r, names, q + 4);
    AndIs(d, l, r, names, |c.code|);
  }

  lemma OrLaidOut(c: Chunk, c1: Chunk, c2: Chunk, c3: Chunk, c4: Chunk, c5: Chunk, d: Chunk, l: Expr, r: Expr,
                  names: seq<string>)
    requires Grows(c, c1, ExprLen(l)) && ExprAt(c1, l, names, |c.code|)
    requires c2 == Chunk(c1.code + [OP_JUMP_IF_FALSE, 255, 255] + [OP_JUMP, 255, 255], c1.constants)
    requires Aimed(c2, c3, |c1.code| + 1) && c4 == Chunk(c3.code + [OP_POP], c3.constants)
    requires Grows(c4, c5, ExprLen(r)) && ExprAt(c5, r, names, |c4.code|) && Aimed(c5, d, |c1.code| + 4)
    ensures Grows(c, d, ExprLen(Or(l, r))) && ExprAt(d, Or(l, r), names, |c.code|)
  {
    hide Kept, Grown, Aimed, Short, ExprAt, ExprLen, At;
    var j := Chunk(c1.code + [OP_JUMP_IF_FALSE, 255, 255], c1.constants);
    assert j.code + [] == j.code;
    GrowsBytes(j, j, []);
    BranchLaidOut(c1, j, c2, c3, c4, c5, d, 0, ExprLen(r));
    GrowsOn(c, c1, d, ExprLen(l), 7 + ExprLen(r));
    GrowExpr(c1, d, 7 + ExprLen(r), l, names, |c.code|);
    KeepExpr(c5, d, r, names, |c1.code| + 7);
    OrIs(d, l, r, names, |c.code|);
  }

  lemma TernaryLaidOut(c: Chunk, c1: Chunk, c2: Chunk, c3: Chunk, c4: Chunk, c5: Chunk, c6: Chunk, c7: Chunk, d: Chunk,
                       x: Expr, yes: Expr, no: Expr, names: seq<string>)
    requires Grows(c, c1, ExprLen(x)) && ExprAt(c1, x, names, |c.code|)
    requires c2 == Chunk(c1.code + [OP_JUMP_IF_FALSE, 255, 255] + [OP_POP], c1.constants)
    requires Grows(c2, c3, ExprLen(yes)) && ExprAt(c3, yes, names, |c2.code|)
    requires c4 == Chunk(c3.code + [OP_JUMP, 255, 255], c3.constants)
    requires Aimed(c4, c5, |c1.code| + 1) && c6 == Chunk(c5.code + [OP_POP], c5.constants)
    requires Grows(c6, c7, ExprLen(no)) && ExprAt(c7, no, names, |c6.code|) && Aimed(c7, d, |c3.code| + 1)
    ensures Grows(c, d, ExprLen(Ternary(x, yes, no))) && ExprAt(d, Ternary(x, yes, no), names, |c.code|)
  {
    hide Kept, Grown, Aimed, Short, ExprAt, ExprLen, At;
    var q := |c1.code|;
    var n := 1 + ExprLen(yes) + ExprLen(no) + 7;
    PoppedBranch(c1, c2, c3, c4, c5, c6, c7, d, ExprLen(yes), ExprLen(no));
    GrowsOn(c, c1, d, ExprLen(x), n);
    GrowExpr(c1, d, n, x, names, |c.code|);
    KeepExpr(c3, d, yes, names, q + 4);
    KeepExpr(c7, d, no, names, q + 4 + ExprLen(yes) + 4);
    TernaryIs(d, x, yes, no, names, |c.code|);
  }

  /** A two-way branch both of whose ways begin by popping the condition. */
  lemma PoppedBranch(c: Chunk, c1: Chunk, c2: Chunk, c3: Chunk, c4: Chunk, c5: Chunk, c6: Chunk, d: Chunk, a: nat, b: nat)
    requires c1 == Chunk(c.code + [OP_JUMP_IF_FALSE, 255, 255] + [OP_POP], c.constants)
    requires Grows(c1, c2, a)
    requires c3 == Chunk(c2.code + [OP_JUMP, 255, 255], c2.constants)
    requires Aimed(c3, c4, |c.code| + 1) && c5 == Chunk(c4.code + [OP_POP], c4.constants)
    requires Grows(c5, c6, b) && Aimed(c6, d, |c2.code| + 1)
    ensures var q := |c.code|;
            var m := q + 4 + a;
            && Grows(c, d, a + b + 8) && |c5.code| == m + 4
            && At(d.code, q, JumpIfFalse(a + 4)) && At(d.code, q + 3, Pop)
            && At(d.code, m, Jump(1 + b)) && At(d.code, m + 3, Pop)
            && Kept(c2.code, d.code, q + 4, m) && Grown(c2, d)
            && Kept(c6.code, d.code, m + 4, m + 4 + b) && Grown(c6, d)
  {
    hide Aimed, Short, Grown;
    var j := Chunk(c.code + [OP_JUMP_IF_FALSE, 255, 255], c.constants);
    GrowsBytes(j, c1, [OP_POP]);
    GrowsOn(j, c1, c2, 1, a);
    BranchLaidOut(c, c2, c3, c4, c5, c6, d, 1 + a, b);
    GrowInstr(c1, c2, a, |c.code| + 3, Pop);
  }

  lemma GrowExprs(c: Chunk, d: Chunk, n: nat, es: Exprs, names: seq<string>, p: nat)
    requires ExprsAt(c, es, names, p) && Grows(c, d, n) && p + ExprsLen(es) <= |c.code|
    ensures ExprsAt(d, es, names, p)
  {
    hide ExprsAt, Grown, ExprsLen;
    CarryExprs(c, d, es, names, p, p, p + ExprsLen(es), None);
  }

  /** A case body between the comparison that may skip it and the jump to the end of the switch:
      `c` before the comparison, `c1` after the body, `c4` after everything else. */
  lemma CaseBranch(c: Chunk, c1: Chunk, c2: Chunk, c3: Chunk, c4: Chunk, d: Chunk, a: nat, b: nat)
    requires Grows(Chunk(c.code + [OP_COMPARE_JUMP, 255, 255], c.constants), c1, a)
    requires c2 == Chunk(c1.code + [OP_JUMP, 255, 255], c1.constants)
    requires Aimed(c2, c3, |c.code| + 1)
    requires Grows(c3, c4, b) && Aimed(c4, d, |c1.code| + 1)
    ensures var m := |c.code| + 3 + a;
            && Grows(c, d, a + b + 6) && |c3.code| == m + 3
            && At(d.code, |c.code|, CompareJump(a + 3)) && At(d.code, m, Jump(b))
            && Kept(c1.code, d.code, |c.code| + 3, m) && Grown(c1, d)
            && Kept(c4.code, d.code, m + 3, m + 3 + b) && Grown(c4, d)
  {
    var m := |c1.code|;
    var x := Chunk(c1.code[..|c.code| + 1] + c3.code[|c.code| + 1..|c.code| + 3] + c1.code[|c.code| + 3..], c1.constants);
    ThenLaidOut(c, c1, c2, c3, x, a, OP_COMPARE_JUMP);
    JumpLaidOut(x, c4, d, OP_JUMP, b);
    GrowsOn(c, x, d, 3 + a, 3 + b);
    GrowInstr(x, d, 3 + b, |c.code|, CompareJump(a + 3));
  }
}
