/** Finding and patching `break` placeholders by scanning the loop body's bytes, and what a
    rewriting of code does to code that is known to be laid out correctly. */
module Patching {
  import opened Options
  import opened Values
  import opened Language
  import opened Bytecode
  import opened Layout

  // ---- operand widths ----

  predicate OneOperand(b: Byte) {
    || b == OP_CONSTANT || b == OP_UNPACK_LIST || b == OP_GET_LOCAL || b == OP_SET_LOCAL
    || b == OP_GET_GLOBAL || b == OP_GET_MODULE || b == OP_DEFINE_MODULE || b == OP_SET_MODULE
    || b == OP_GET_UPVALUE || b == OP_SET_UPVALUE || b == OP_GET_ATTRIBUTE || b == OP_GET_PRIVATE_ATTRIBUTE
    || b == OP_GET_ATTRIBUTE_NO_POP || b == OP_GET_PRIVATE_ATTRIBUTE_NO_POP || b == OP_SET_ATTRIBUTE
    || b == OP_SET_PRIVATE_ATTRIBUTE || b == OP_SET_CLASS_VAR || b == OP_SET_INIT_ATTRIBUTES
    || b == OP_SET_PRIVATE_INIT_ATTRIBUTES || b == OP_GET_SUPER || b == OP_METHOD || b == OP_IMPORT
    || b == OP_NEW_LIST || b == OP_NEW_DICT || b == OP_CLOSE_FILE || b == OP_MULTI_CASE
    || b == OP_DEFINE_CLASS_ANNOTATIONS || b == OP_DEFINE_METHOD_ANNOTATIONS
    || b == OP_DEFINE_FIELD_ANNOTATIONS
  }

  predicate TwoOperands(b: Byte) {
    || b == OP_DEFINE_OPTIONAL || b == OP_JUMP || b == OP_COMPARE_JUMP || b == OP_JUMP_IF_NIL
    || b == OP_JUMP_IF_FALSE || b == OP_LOOP || b == OP_CLASS || b == OP_SUBCLASS || b == OP_IMPORT_BUILTIN
    || b == OP_CALL
  }

  predicate ThreeOperands(b: Byte) {
    || b == OP_INVOKE || b == OP_INVOKE_INTERNAL || b == OP_SUPER
  }

  /** How many operand bytes follow the opcode at `i`; opcodes not listed have none. `upvalues`
      gives the upvalue count of the function stored as a constant. */
  function ArgCount(code: seq<Byte>, upvalues: map<int, nat>, i: nat): nat
    requires i < |code|
  {
    var b := code[i];
    if OneOperand(b) then 1
    else if TwoOperands(b) then 2
    else if ThreeOperands(b) then 3
    else if b == OP_IMPORT_BUILTIN_VARIABLE && i + 2 < |code| then 2 + code[i + 2] as int
    else if b == OP_IMPORT_FROM && i + 1 < |code| then 1 + code[i + 1] as int
    else if b == OP_CLOSURE && i + 1 < |code| && code[i + 1] as int in upvalues then 1 + 2 * upvalues[code[i + 1] as int]
    else 0
  }

  /** How far the scan moves: a placeholder is three bytes, whatever its operand count says. */
  function Width(code: seq<Byte>, upvalues: map<int, nat>, i: nat): (w: nat)
    requires i < |code|
    ensures w > 0
  {
    if code[i] == OP_BREAK then 3 else 1 + ArgCount(code, upvalues, i)
  }

  /** From `i` on, whole instructions follow each other and end exactly at `j`. */
  predicate Stream(code: seq<Byte>, upvalues: map<int, nat>, i: nat, j: nat)
    decreases j - i
  {
    i == j || (i < j && i < |code| && i + Width(code, upvalues, i) <= j
               && Stream(code, upvalues, i + Width(code, upvalues, i), j))
  }

  function Hi(n: nat): Byte { n / 256 % 256 }

  function Lo(n: nat): Byte { n % 256 }

  /** The placeholder at `i` overwritten with a jump to `exit`. */
  function Mark(code: seq<Byte>, i: nat, exit: nat): (r: seq<Byte>)
    requires i + 3 <= |code| && i + 3 <= exit
    ensures |r| == |code|
    ensures forall k :: 0 <= k < |code| && !(i <= k < i + 3) ==> r[k] == code[k]
  {
    var jump := exit - (i + 3);
    code[i := OP_JUMP][i + 1 := Hi(jump)][i + 2 := Lo(jump)]
  }

  lemma MarkIsJump(code: seq<Byte>, d: seq<Byte>, i: nat, exit: nat)
    requires i + 3 <= |code| && i + 3 <= exit <= i + 65538 && i + 3 <= |d|
    requires forall k :: i <= k < i + 3 ==> d[k] == Mark(code, i, exit)[k]
    ensures At(d, i, Jump(exit - (i + 3)))
  {
    var jump := exit - (i + 3);
    assert jump / 256 < 256 && jump / 256 * 256 + jump % 256 == jump;
  }

  /** The scan: every placeholder from `i` on becomes a jump to `exit`. */
  function PatchFrom(code: seq<Byte>, upvalues: map<int, nat>, i: nat, exit: nat): (r: seq<Byte>)
    ensures |r| == |code|
    decreases |code| - i
  {
    if i >= |code| then code
    else if code[i] == OP_BREAK && i + 3 <= |code| && i + 3 <= exit then
      PatchFrom(Mark(code, i, exit), upvalues, i + 3, exit)
    else PatchFrom(code, upvalues, i + Width(code, upvalues, i), exit)
  }

  /** `d` is `c` between `i` and `j` except that placeholders there have become jumps to `exit`. */
  predicate Patched(c: seq<Byte>, d: seq<Byte>, upvalues: map<int, nat>, i: nat, j: nat, exit: nat)
    decreases j - i
  {
    || i == j
    || (&& i < j && i < |c|
        && var w := Width(c, upvalues, i);
           && i + w <= j && i + w <= |c| && i + w <= |d|
           && (if c[i] == OP_BREAK then
                 i + 3 <= exit && At(d, i, Jump(exit - (i + 3)))
               else
                 forall k :: i <= k < i + w ==> d[k] == c[k])
           && Patched(c, d, upvalues, i + w, j, exit))
  }

  lemma {:induction false} PatchKeepsPrefix(code: seq<Byte>, upvalues: map<int, nat>, i: nat, exit: nat)
    ensures forall k :: 0 <= k < i && k < |code| ==> PatchFrom(code, upvalues, i, exit)[k] == code[k]
    decreases |code| - i
  {
    if i >= |code| {
    } else if code[i] == OP_BREAK && i + 3 <= |code| && i + 3 <= exit {
      PatchKeepsPrefix(Mark(code, i, exit), upvalues, i + 3, exit);
    } else {
      PatchKeepsPrefix(code, upvalues, i + Width(code, upvalues, i), exit);
    }
  }

  /** On a stream of whole instructions the scan patches the placeholders and nothing else. */
  lemma {:induction false} ScanPatches(code: seq<Byte>, upvalues: map<int, nat>, i: nat, exit: nat)
    requires i <= |code| <= exit && exit - i <= 65538
    requires Stream(code, upvalues, i, |code|)
    ensures Patched(code, PatchFrom(code, upvalues, i, exit), upvalues, i, |code|, exit)
    decreases |code| - i
  {
    hide ArgCount, Mark, At, Hi, Lo;
    if i < |code| {
      var w := Width(code, upvalues, i);
      if code[i] == OP_BREAK {
        var next := Mark(code, i, exit);
        var d := PatchFrom(next, upvalues, i + 3, exit);
        assert code[i + 3..] == next[i + 3..];
        SameStream(code, next, upvalues, i + 3);
        ScanPatches(next, upvalues, i + 3, exit);
        PatchKeepsPrefix(next, upvalues, i + 3, exit);
        SamePatched(next, code, d, upvalues, i + 3, |code|, exit);
        MarkIsJump(code, d, i, exit);
      } else {
        ScanPatches(code, upvalues, i + w, exit);
        PatchKeepsPrefix(code, upvalues, i + w, exit);
      }
    }
  }

  lemma {:induction false} SameStream(c: seq<Byte>, d: seq<Byte>, upvalues: map<int, nat>, i: nat)
    requires |c| == |d| && i <= |c| && c[i..] == d[i..] && Stream(c, upvalues, i, |c|)
    ensures Stream(d, upvalues, i, |d|)
    decreases |c| - i
  {
    if i < |c| {
      assert forall k :: i <= k < |c| ==> c[k] == c[i..][k - i] && d[k] == d[i..][k - i];
      var w := Width(c, upvalues, i);
      assert Width(d, upvalues, i) == w;
      assert c[i + w..] == c[i..][w..] && d[i + w..] == d[i..][w..];
      SameStream(c, d, upvalues, i + w);
    }
  }

  lemma {:induction false} SamePatched(c: seq<Byte>, c': seq<Byte>, d: seq<Byte>, upvalues: map<int, nat>, i: nat, j: nat,
                                       exit: nat)
    requires |c| == |c'| && i <= j && Patched(c, d, upvalues, i, j, exit)
    requires forall k :: i <= k < |c| ==> c[k] == c'[k]
    ensures Patched(c', d, upvalues, i, j, exit)
    decreases j - i
  {
    if i < j {
      var w := Width(c, upvalues, i);
      assert Width(c', upvalues, i) == w;
      SamePatched(c, c', d, upvalues, i + w, j, exit);
    }
  }

  // ---- rewriting laid-out code ----

  /** `c[i..j]` was rewritten to `d[i..j]`: not at all (`exit` is none), or by patching placeholders
      towards an exit. Whole instructions lead from `a` to `i`. */
  predicate Carried(c: seq<Byte>, d: seq<Byte>, i: nat, a: nat, j: nat, exit: Option<nat>) {
    && i <= j <= |c| <= |d|
    && Stream(c, map[], a, i)
    && if exit.Some? then Patched(c, d, map[], i, j, exit.value)
       else forall k :: i <= k < j ==> d[k] == c[k]
  }

  lemma {:induction false} StreamOn(code: seq<Byte>, upvalues: map<int, nat>, a: nat, i: nat)
    requires i < |code| && Stream(code, upvalues, a, i)
    ensures Stream(code, upvalues, a, i + Width(code, upvalues, i))
    decreases i - a
  {
    if a < i { StreamOn(code, upvalues, a + Width(code, upvalues, a), i); }
  }

  /** The constant pool only grows. */
  predicate Grown(ch: Chunk, dh: Chunk) {
    |ch.constants| <= |dh.constants| && forall k :: 0 <= k < |ch.constants| ==> dh.constants[k] == ch.constants[k]
  }

  /** An open loop gets the exit its placeholders were patched to. */
  function Fill(t: Target, exit: Option<nat>): Target {
    if t.InLoop? && t.exit.None? && exit.Some? then t.(exit := exit) else t
  }

  lemma InstrWidth(code: seq<Byte>, i: nat, instr: Instr)
    requires At(code, i, instr)
    ensures Width(code, map[], i) == Size(instr)
  {
  }

  /** Each of the `Carry` lemmas consumes one piece of code from the front of a rewritten stretch. */
  lemma CarryInstr(c: seq<Byte>, d: seq<Byte>, i: nat, a: nat, j: nat, exit: Option<nat>, instr: Instr)
    requires At(c, i, instr) && !instr.BreakMark? && Carried(c, d, i, a, j, exit) && i + Size(instr) <= j
    ensures At(d, i, instr) && Carried(c, d, i + Size(instr), a, j, exit)
  {
    hide ArgCount;
    InstrWidth(c, i, instr);
    StreamOn(c, map[], a, i);
  }

  lemma CarryNames(ch: Chunk, dh: Chunk, i: nat, a: nat, j: nat, exit: Option<nat>, op: Byte, v: Value)
    requires Names(ch, i, op, v) && Carried(ch.code, dh.code, i, a, j, exit) && i + 2 <= j
    requires Grown(ch, dh)
    requires op == OP_CONSTANT || op == OP_GET_MODULE || op == OP_SET_MODULE || op == OP_DEFINE_MODULE
    ensures Names(dh, i, op, v) && Carried(ch.code, dh.code, i + 2, a, j, exit)
  {
    var k := ch.code[i + 1];
    var instr := if op == OP_CONSTANT then Constant(k) else if op == OP_GET_MODULE then GetModule(k)
                 else if op == OP_SET_MODULE then SetModule(k) else DefineModule(k);
    CarryInstr(ch.code, dh.code, i, a, j, exit, instr);
  }

  lemma {:induction false} CarryPops(c: seq<Byte>, d: seq<Byte>, i: nat, a: nat, j: nat, exit: Option<nat>, n: nat)
    requires PopsAt(c, i, n) && Carried(c, d, i, a, j, exit) && i + n <= j
    ensures PopsAt(d, i, n) && Carried(c, d, i + n, a, j, exit)
    decreases n
  {
    if n > 0 {
      CarryInstr(c, d, i, a, j, exit, Pop);
      CarryPops(c, d, i + 1, a, j, exit, n - 1);
    }
  }

  lemma {:induction false} CarryExpr(ch: Chunk, dh: Chunk, e: Expr, names: seq<string>, p: nat, a: nat, j: nat, exit: Option<nat>)
    requires ExprAt(ch, e, names, p) && Carried(ch.code, dh.code, p, a, j, exit) && p + ExprLen(e) <= j
    requires Grown(ch, dh)
    ensures ExprAt(dh, e, names, p) && Carried(ch.code, dh.code, p + ExprLen(e), a, j, exit)
    decreases e, 1
  {
    hide Grown, At, Carried, ExprAt, ExprLen;
    match e
    case Literal(_) => CarryLeaf(ch, dh, e, names, p, a, j, exit);
    case Variable(_) => CarryLeaf(ch, dh, e, names, p, a, j, exit);
    case Assign(name, rhs) => CarryAssign(ch, dh, name, rhs, names, p, a, j, exit);
    case Not(e1) => CarryUnary(ch, dh, e, e1, names, p, a, j, exit);
    case Negate(e1) => CarryUnary(ch, dh, e, e1, names, p, a, j, exit);
    case Binary(op, l, r) => CarryBinary(ch, dh, op, l, r, names, p, a, j, exit);
    case And(l, r) => CarryAnd(ch, dh, l, r, names, p, a, j, exit);
    case Or(l, r) => CarryOr(ch, dh, l, r, names, p, a, j, exit);
    case Ternary(x, yes, no) => CarryTernary(ch, dh, x, yes, no, names, p, a, j, exit);
  }

  lemma CarryLeaf(ch: Chunk, dh: Chunk, e: Expr, names: seq<string>, p: nat, a: nat, j: nat, exit: Option<nat>)
    requires e.Literal? || e.Variable?
    requires ExprAt(ch, e, names, p) && Carried(ch.code, dh.code, p, a, j, exit) && p + ExprLen(e) <= j && Grown(ch, dh)
    ensures ExprAt(dh, e, names, p) && Carried(ch.code, dh.code, p + ExprLen(e), a, j, exit)
  {
    hide Grown, At, Carried, Names;
    var c, d := ch.code, dh.code;
    match e
    case Literal(v) =>
      if v.Nil? { CarryInstr(c, d, p, a, j, exit, PushNil); }
      else if v.Bool? { CarryInstr(c, d, p, a, j, exit, if v.b then PushTrue else PushFalse); }
      else { CarryNames(ch, dh, p, a, j, exit, OP_CONSTANT, v); }
    case Variable(name) =>
      var i := Resolve(names, name);
      if 0 <= i { CarryInstr(c, d, p, a, j, exit, GetLocal(i + 1)); }
      else { CarryNames(ch, dh, p, a, j, exit, OP_GET_MODULE, Str(name)); }
  }

  lemma {:induction false} CarryUnary(ch: Chunk, dh: Chunk, e: Expr, e1: Expr, names: seq<string>, p: nat, a: nat, j: nat,
                                      exit: Option<nat>)
    requires e == Not(e1) || e == Negate(e1)
    requires ExprAt(ch, e, names, p) && Carried(ch.code, dh.code, p, a, j, exit) && p + ExprLen(e) <= j && Grown(ch, dh)
    ensures ExprAt(dh, e, names, p) && Carried(ch.code, dh.code, p + ExprLen(e), a, j, exit)
    decreases e, 0
  {
    hide Grown, At, Carried, ExprAt, ExprLen;
    UnaryIs(ch, e, names, p);
    CarryExpr(ch, dh, e1, names, p, a, j, exit);
    CarryInstr(ch.code, dh.code, p + ExprLen(e1), a, j, exit, if e.Not? then Invert else Minus);
    UnaryIs(dh, e, names, p);
  }

  /** A condition, the jump taken when it is false, and the pop of the condition. */
  lemma {:induction false} CarryCond(ch: Chunk, dh: Chunk, e: Expr, offset: nat, names: seq<string>, p: nat, a: nat, j: nat,
                                     exit: Option<nat>)
    requires ExprAt(ch, e, names, p) && Carried(ch.code, dh.code, p, a, j, exit) && p + ExprLen(e) + 4 <= j && Grown(ch, dh)
    requires At(ch.code, p + ExprLen(e), JumpIfFalse(offset)) && At(ch.code, p + ExprLen(e) + 3, Pop)
    ensures ExprAt(dh, e, names, p) && Carried(ch.code, dh.code, p + ExprLen(e) + 4, a, j, exit)
    ensures At(dh.code, p + ExprLen(e), JumpIfFalse(offset)) && At(dh.code, p + ExprLen(e) + 3, Pop)
    decreases e, 2
  {
    hide Grown, At, Carried, Names, ExprAt, ExprLen;
    CarryExpr(ch, dh, e, names, p, a, j, exit);
    CarryInstr(ch.code, dh.code, p + ExprLen(e), a, j, exit, JumpIfFalse(offset));
    CarryInstr(ch.code, dh.code, p + ExprLen(e) + 3, a, j, exit, Pop);
  }

  /** The jump over an alternative and the pop of the condition it starts with. */
  lemma CarrySkip(c: seq<Byte>, d: seq<Byte>, p: nat, a: nat, j: nat, exit: Option<nat>, offset: nat)
    requires At(c, p, Jump(offset)) && At(c, p + 3, Pop) && Carried(c, d, p, a, j, exit) && p + 4 <= j
    ensures At(d, p, Jump(offset)) && At(d, p + 3, Pop) && Carried(c, d, p + 4, a, j, exit)
  {
    hide At, Carried;
    CarryInstr(c, d, p, a, j, exit, Jump(offset));
    CarryInstr(c, d, p + 3, a, j, exit, Pop);
  }

  lemma {:induction false} CarryAnd(ch: Chunk, dh: Chunk, l: Expr, r: Expr, names: seq<string>, p: nat, a: nat, j: nat,
                                    exit: Option<nat>)
    requires ExprAt(ch, And(l, r), names, p) && Carried(ch.code, dh.code, p, a, j, exit)
    requires p + ExprLen(And(l, r)) <= j && Grown(ch, dh)
    ensures ExprAt(dh, And(l, r), names, p) && Carried(ch.code, dh.code, p + ExprLen(And(l, r)), a, j, exit)
    decreases And(l, r), 0
  {
    hide Grown, At, Carried, ExprAt, ExprLen;
    AndIs(ch, l, r, names, p);
    var c, d := ch.code, dh.code;
    var q := p + ExprLen(l);
    CarryCond(ch, dh, l, 1 + ExprLen(r), names, p, a, j, exit);
    CarryExpr(ch, dh, r, names, q + 4, a, j, exit);
    AndIs(dh, l, r, names, p);
  }

  lemma {:induction false} CarryOr(ch: Chunk, dh: Chunk, l: Expr, r: Expr, names: seq<string>, p: nat, a: nat, j: nat,
                                    exit: Option<nat>)
    requires ExprAt(ch, Or(l, r), names, p) && Carried(ch.code, dh.code, p, a, j, exit)
    requires p + ExprLen(Or(l, r)) <= j && Grown(ch, dh)
    ensures ExprAt(dh, Or(l, r), names, p) && Carried(ch.code, dh.code, p + ExprLen(Or(l, r)), a, j, exit)
    decreases Or(l, r), 0
  {
    hide Grown, At, Carried, ExprAt, ExprLen;
    OrIs(ch, l, r, names, p);
    var c, d := ch.code, dh.code;
    var q := p + ExprLen(l);
    CarryExpr(ch, dh, l, names, p, a, j, exit);
    CarryInstr(c, d, q, a, j, exit, JumpIfFalse(3));
    CarryInstr(c, d, q + 3, a, j, exit, Jump(1 + ExprLen(r)));
    CarryInstr(c, d, q + 6, a, j, exit, Pop);
    CarryExpr(ch, dh, r, names, q + 7, a, j, exit);
    OrIs(dh, l, r, names, p);
  }

  lemma {:induction false} CarryTernary(ch: Chunk, dh: Chunk, x: Expr, yes: Expr, no: Expr, names: seq<string>, p: nat, a: nat, j: nat,
                                    exit: Option<nat>)
    requires ExprAt(ch, Ternary(x, yes, no), names, p) && Carried(ch.code, dh.code, p, a, j, exit)
    requires p + ExprLen(Ternary(x, yes, no)) <= j && Grown(ch, dh)
    ensures ExprAt(dh, Ternary(x, yes, no), names, p) && Carried(ch.code, dh.code, p + ExprLen(Ternary(x, yes, no)), a, j, exit)
    decreases Ternary(x, yes, no), 0
  {
    hide Grown, At, Carried, ExprAt, ExprLen;
    TernaryIs(ch, x, yes, no, names, p);
    var c, d := ch.code, dh.code;
    var q := p + ExprLen(x);
    var m := q + 4 + ExprLen(yes);
    CarryCond(ch, dh, x, 4 + ExprLen(yes), names, p, a, j, exit);
    CarryExpr(ch, dh, yes, names, q + 4, a, j, exit);
    CarrySkip(c, d, m, a, j, exit, 1 + ExprLen(no));
    CarryExpr(ch, dh, no, names, m + 4, a, j, exit);
    TernaryIs(dh, x, yes, no, names, p);
  }

  lemma {:induction false} CarryBinary(ch: Chunk, dh: Chunk, op: BinaryOp, l: Expr, r: Expr, names: seq<string>, p: nat, a: nat, j: nat,
                                    exit: Option<nat>)
    requires ExprAt(ch, Binary(op, l, r), names, p) && Carried(ch.code, dh.code, p, a, j, exit)
    requires p + ExprLen(Binary(op, l, r)) <= j && Grown(ch, dh)
    ensures ExprAt(dh, Binary(op, l, r), names, p) && Carried(ch.code, dh.code, p + ExprLen(Binary(op, l, r)), a, j, exit)
    decreases Binary(op, l, r), 0
  {
    hide Grown, At, Carried, ExprAt, ExprLen, OperatorAt, OpLen;
    BinaryIs(ch, op, l, r, names, p);
    var c, d := ch.code, dh.code;
    CarryExpr(ch, dh, l, names, p, a, j, exit);
    CarryExpr(ch, dh, r, names, p + ExprLen(l), a, j, exit);
    CarryOperator(c, d, op, p + ExprLen(l) + ExprLen(r), a, j, exit);
    BinaryIs(dh, op, l, r, names, p);
  }

  lemma {:induction false} CarryAssign(ch: Chunk, dh: Chunk, name: Name, rhs: Expr, names: seq<string>, p: nat, a: nat, j: nat,
                                    exit: Option<nat>)
    requires ExprAt(ch, Assign(name, rhs), names, p) && Carried(ch.code, dh.code, p, a, j, exit)
    requires p + ExprLen(Assign(name, rhs)) <= j && Grown(ch, dh)
    ensures ExprAt(dh, Assign(name, rhs), names, p) && Carried(ch.code, dh.code, p + ExprLen(Assign(name, rhs)), a, j, exit)
    decreases Assign(name, rhs), 0
  {
    hide Grown, At, Carried, Names, Resolve, ExprAt, ExprLen;
    AssignIs(ch, name, rhs, names, p);
    var c, d := ch.code, dh.code;
    var q := p + ExprLen(rhs);
    var i := Resolve(names, name);
    CarryExpr(ch, dh, rhs, names, p, a, j, exit);
    if 0 <= i { CarryInstr(c, d, q, a, j, exit, SetLocal(i + 1)); }
    else { CarryNames(ch, dh, q, a, j, exit, OP_SET_MODULE, Str(name)); }
    AssignIs(dh, name, rhs, names, p);
  }

  lemma CarryOperator(c: seq<Byte>, d: seq<Byte>, op: BinaryOp, p: nat, a: nat, j: nat, exit: Option<nat>)
    requires OperatorAt(c, op, p) && Carried(c, d, p, a, j, exit) && p + OpLen(op) <= j
    ensures OperatorAt(d, op, p) && Carried(c, d, p + OpLen(op), a, j, exit)
  {
    hide Grown, At, Carried;
    var first := match op
      case Equal => TestEqual
      case NotEqual => TestEqual
      case GreaterEqual => Arithmetic(Less)
      case LessEqual => Arithmetic(Greater)
      case Op(o) => Arithmetic(o);
    CarryInstr(c, d, p, a, j, exit, first);
    if OpLen(op) == 2 { CarryInstr(c, d, p + 1, a, j, exit, Invert); }
  }

  lemma {:induction false} CarryExprs(ch: Chunk, dh: Chunk, es: Exprs, names: seq<string>, p: nat, a: nat, j: nat, exit: Option<nat>)
    requires ExprsAt(ch, es, names, p) && Carried(ch.code, dh.code, p, a, j, exit) && p + ExprsLen(es) <= j
    requires Grown(ch, dh)
    ensures ExprsAt(dh, es, names, p) && Carried(ch.code, dh.code, p + ExprsLen(es), a, j, exit)
    decreases es
  {
    hide Carried, ExprAt;
    if es.MoreExprs? {
      CarryExpr(ch, dh, es.head, names, p, a, j, exit);
      CarryExprs(ch, dh, es.tail, names, p + ExprLen(es.head), a, j, exit);
    }
  }

  lemma CarryInit(ch: Chunk, dh: Chunk, init: Option<Expr>, default: Instr, names: seq<string>, p: nat, a: nat, j: nat,
                  exit: Option<nat>)
    requires InitAt(ch, init, default, names, p) && Carried(ch.code, dh.code, p, a, j, exit) && p + InitLen(init) <= j
    requires (default.PushNil? || default.PushTrue?) && Grown(ch, dh)
    ensures InitAt(dh, init, default, names, p) && Carried(ch.code, dh.code, p + InitLen(init), a, j, exit)
  {
    hide Grown, At, Carried, ExprAt;
    if init.Some? { CarryExpr(ch, dh, init.value, names, p, a, j, exit); }
    else { CarryInstr(ch.code, dh.code, p, a, j, exit, default); }
  }

  /** The main result on rewriting: code of a statement whose breaks were placeholders is, after the
      scan, code of the same statement whose breaks jump to the exit; inner loops, already patched,
      are untouched. With `exit` none it says that code survives whatever is appended behind it. */
  lemma {:induction false} CarryStmt(ch: Chunk, dh: Chunk, s: Stmt, names: seq<string>, t: Target, p: nat, a: nat, j: nat,
                                     exit: Option<nat>)
    requires StmtAt(ch, s, names, t, p) && Carried(ch.code, dh.code, p, a, j, exit)
    requires p + StmtLen(s, Extra(names, t)) <= j && Grown(ch, dh) && Base(t) <= |names|
    ensures StmtAt(dh, s, names, Fill(t, exit), p)
    ensures Carried(ch.code, dh.code, p + StmtLen(s, Extra(names, t)), a, j, exit)
    decreases s, 1
  {
    hide Grown, At, Carried, ExprAt, ExprLen, ItemsAt, WhileAt, ForAt, CasesAt, ItemsLen, CasesLen;
    var c, d := ch.code, dh.code;
    match s
    case Evaluate(e) =>
      CarryExpr(ch, dh, e, names, p, a, j, exit);
      CarryInstr(c, d, p + ExprLen(e), a, j, exit, Pop);
    case Block(items) => CarryBlock(ch, dh, items, names, t, p, a, j, exit);
    case If(x, yes, no) => CarryIf(ch, dh, x, yes, no, names, t, p, a, j, exit);
    case While(test, body) => CarryWhile(ch, dh, test, body, names, p, a, j, exit);
    case For(init, test, step, body) => CarryForStatement(ch, dh, init, test, step, body, names, t, p, a, j, exit);
    case Switch(subject, cases) =>
      CarryExpr(ch, dh, subject, names, p, a, j, exit);
      var q := p + ExprLen(subject);
      CarryCases(ch, dh, cases, names, t, q, q + CasesLen(cases, Extra(names, t)), a, j, exit);
    case Break => CarryLeave(ch, dh, s, names, t, p, a, j, exit);
    case Continue => CarryLeave(ch, dh, s, names, t, p, a, j, exit);
  }

  lemma {:induction false} CarryBlock(ch: Chunk, dh: Chunk, items: Items, names: seq<string>, t: Target, p: nat, a: nat, j: nat,
                                      exit: Option<nat>)
    requires StmtAt(ch, Block(items), names, t, p) && Carried(ch.code, dh.code, p, a, j, exit)
    requires p + StmtLen(Block(items), Extra(names, t)) <= j && Grown(ch, dh) && Base(t) <= |names|
    ensures StmtAt(dh, Block(items), names, Fill(t, exit), p)
    ensures Carried(ch.code, dh.code, p + StmtLen(Block(items), Extra(names, t)), a, j, exit)
    decreases Block(items), 0
  {
    hide Grown, At, Carried, ItemsAt, ItemsLen, PopsAt, ForAt, WhileAt, CasesAt, ExprAt, Declared;
    CarryItems(ch, dh, items, false, names, t, p, a, j, exit);
    CarryPops(ch.code, dh.code, p + ItemsLen(items, false, Extra(names, t)), a, j, exit, Declared(items));
  }

  lemma {:induction false} CarryForStatement(ch: Chunk, dh: Chunk, init: Items, test: Option<Expr>, step: Option<Expr>,
                                             body: Stmt, names: seq<string>, t: Target, p: nat, a: nat, j: nat, exit: Option<nat>)
    requires StmtAt(ch, For(init, test, step, body), names, t, p) && Carried(ch.code, dh.code, p, a, j, exit)
    requires p + StmtLen(For(init, test, step, body), Extra(names, t)) <= j && Grown(ch, dh) && Base(t) <= |names|
    ensures StmtAt(dh, For(init, test, step, body), names, Fill(t, exit), p)
    ensures Carried(ch.code, dh.code, p + StmtLen(For(init, test, step, body), Extra(names, t)), a, j, exit)
    decreases For(init, test, step, body), 0
  {
    hide Grown, At, Carried, ItemsAt, ItemsLen, PopsAt, ForAt, WhileAt, CasesAt, ExprAt, Declared, ExtendAll, TestLen, StepLen;
    CarryItems(ch, dh, init, false, names, t, p, a, j, exit);
    var q := p + ItemsLen(init, false, Extra(names, t));
    CarryFor(ch, dh, test, step, body, ExtendAll(names, init, false), q, a, j, exit);
    CarryPops(ch.code, dh.code, q + ForLen(test, step, body), a, j, exit, Declared(init));
  }

  /** A placeholder for `break` becomes a jump to the exit, if there is one yet. */
  lemma CarryMark(c: seq<Byte>, d: seq<Byte>, q: nat, a: nat, j: nat, exit: Option<nat>)
    requires q + 3 <= j && q < |c| && c[q] == OP_BREAK && Carried(c, d, q, a, j, exit)
    ensures Carried(c, d, q + 3, a, j, exit) && q + 3 <= |d|
    ensures match exit
            case None => d[q] == OP_BREAK
            case Some(e) => q + 3 <= e && At(d, q, Jump(e - (q + 3)))
  {
    hide ArgCount;
    StreamOn(c, map[], a, q);
  }

  lemma CarryLeave(ch: Chunk, dh: Chunk, s: Stmt, names: seq<string>, t: Target, p: nat, a: nat, j: nat, exit: Option<nat>)
    requires s.Break? || s.Continue?
    requires StmtAt(ch, s, names, t, p) && Carried(ch.code, dh.code, p, a, j, exit)
    requires p + StmtLen(s, Extra(names, t)) <= j && Base(t) <= |names|
    ensures StmtAt(dh, s, names, Fill(t, exit), p)
    ensures Carried(ch.code, dh.code, p + StmtLen(s, Extra(names, t)), a, j, exit)
  {
    hide At, Carried, PopsAt;
    var c, d := ch.code, dh.code;
    CarryPops(c, d, p, a, j, exit, Extra(names, t));
    var q := p + Extra(names, t);
    if s.Continue? {
      CarryInstr(c, d, q, a, j, exit, Loop(q + 3 - t.start));
    } else if t.exit.Some? {
      CarryInstr(c, d, q, a, j, exit, Jump(t.exit.value - (q + 3)));
    } else {
      CarryMark(c, d, q, a, j, exit);
    }
  }

  lemma {:induction false} CarryIf(ch: Chunk, dh: Chunk, x: Expr, yes: Stmt, no: Option<Stmt>, names: seq<string>,
                                   t: Target, p: nat, a: nat, j: nat, exit: Option<nat>)
    requires StmtAt(ch, If(x, yes, no), names, t, p) && Carried(ch.code, dh.code, p, a, j, exit)
    requires p + StmtLen(If(x, yes, no), Extra(names, t)) <= j && Grown(ch, dh) && Base(t) <= |names|
    ensures StmtAt(dh, If(x, yes, no), names, Fill(t, exit), p)
    ensures Carried(ch.code, dh.code, p + StmtLen(If(x, yes, no), Extra(names, t)), a, j, exit)
    decreases If(x, yes, no), 0
  {
    hide Grown, At, Carried, ExprAt, ExprLen, WhileAt, ForAt, CasesAt, ItemsAt, InitAt, Resolve, Names;
    assert Extra(names, Fill(t, exit)) == Extra(names, t);
    hide Extra, Fill;
    var c, d := ch.code, dh.code;
    var q := p + ExprLen(x);
    var m := q + 4 + StmtLen(yes, Extra(names, t));
    CarryCond(ch, dh, x, m + 3 - (q + 3), names, p, a, j, exit);
    CarryStmt(ch, dh, yes, names, t, q + 4, a, j, exit);
    CarrySkip(c, d, m, a, j, exit, 1 + if no.Some? then StmtLen(no.value, Extra(names, t)) else 0);
    if no.Some? { CarryStmt(ch, dh, no.value, names, t, m + 4, a, j, exit); }
  }

  lemma {:induction false} CarryWhile(ch: Chunk, dh: Chunk, test: Option<Expr>, body: Stmt, names: seq<string>, p: nat,
                                      a: nat, j: nat, exit: Option<nat>)
    requires WhileAt(ch, test, body, names, p) && Carried(ch.code, dh.code, p, a, j, exit)
    requires p + InitLen(test) + StmtLen(body, 0) + 8 <= j && Grown(ch, dh)
    ensures WhileAt(dh, test, body, names, p)
    ensures Carried(ch.code, dh.code, p + InitLen(test) + StmtLen(body, 0) + 8, a, j, exit)
    decreases body, 2
  {
    hide Grown, At, Carried, InitAt, StmtAt, StmtLen;
    var c, d := ch.code, dh.code;
    var q := p + InitLen(test);
    var m := q + 4 + StmtLen(body, 0);
    CarryInit(ch, dh, test, PushTrue, names, p, a, j, exit);
    CarryInstr(c, d, q, a, j, exit, JumpIfFalse(m + 3 - (q + 3)));
    CarryInstr(c, d, q + 3, a, j, exit, Pop);
    CarryStmt(ch, dh, body, names, InLoop(p, |names|, Some(m + 4)), q + 4, a, j, exit);
    CarryInstr(c, d, m, a, j, exit, Loop(m + 3 - p));
    CarryInstr(c, d, m + 3, a, j, exit, Pop);
  }

  /** The step of a `for` in front of the body: jumped over on the way in, and leading back to the
      test. `c` ends where the jump over it starts. */
  predicate StepAt(ch: Chunk, step: Expr, names: seq<string>, p: nat, q: nat) {
    && p <= q + ExprLen(step) + 7
    && At(ch.code, q, Jump(ExprLen(step) + 4))
    && ExprAt(ch, step, names, q + 3)
    && At(ch.code, q + 3 + ExprLen(step), Pop)
    && At(ch.code, q + 4 + ExprLen(step), Loop(q + ExprLen(step) + 7 - p))
  }

  lemma ForParts(ch: Chunk, test: Option<Expr>, step: Option<Expr>, body: Stmt, names: seq<string>, p: nat)
    requires var q := p + TestLen(test);
             var b := q + StepLen(step);
             var m := b + StmtLen(body, 0);
             var back := if step.Some? then q + 3 else p;
             && (test.Some? ==>
                   && ExprAt(ch, test.value, names, p)
                   && At(ch.code, p + ExprLen(test.value), JumpIfFalse(StepLen(step) + StmtLen(body, 0) + 4))
                   && At(ch.code, p + ExprLen(test.value) + 3, Pop) && At(ch.code, m + 3, Pop))
             && (step.Some? ==> StepAt(ch, step.value, names, p, q))
             && StmtAt(ch, body, names, InLoop(back, |names|, Some(p + ForLen(test, step, body))), b)
             && At(ch.code, m, Loop(m + 3 - back))
    ensures ForAt(ch, test, step, body, names, p)
  {
    hide StmtAt, StmtLen, ExprLen, At, ExprAt;
  }

  lemma ForHas(ch: Chunk, test: Option<Expr>, step: Option<Expr>, body: Stmt, names: seq<string>, p: nat)
    requires ForAt(ch, test, step, body, names, p)
    ensures var q := p + TestLen(test);
            var b := q + StepLen(step);
            var m := b + StmtLen(body, 0);
            var back := if step.Some? then q + 3 else p;
            && (test.Some? ==>
                  && ExprAt(ch, test.value, names, p)
                  && At(ch.code, p + ExprLen(test.value), JumpIfFalse(StepLen(step) + StmtLen(body, 0) + 4))
                  && At(ch.code, p + ExprLen(test.value) + 3, Pop) && At(ch.code, m + 3, Pop))
            && (step.Some? ==> StepAt(ch, step.value, names, p, q))
            && StmtAt(ch, body, names, InLoop(back, |names|, Some(p + ForLen(test, step, body))), b)
            && At(ch.code, m, Loop(m + 3 - back))
  {
    hide StmtAt, StmtLen, ExprLen, At, ExprAt;
  }

  lemma {:induction false} CarryFor(ch: Chunk, dh: Chunk, test: Option<Expr>, step: Option<Expr>, body: Stmt,
                                    names: seq<string>, p: nat, a: nat, j: nat, exit: Option<nat>)
    requires ForAt(ch, test, step, body, names, p) && Carried(ch.code, dh.code, p, a, j, exit)
    requires p + ForLen(test, step, body) <= j && Grown(ch, dh)
    ensures ForAt(dh, test, step, body, names, p)
    ensures Carried(ch.code, dh.code, p + ForLen(test, step, body), a, j, exit)
    decreases body, 2
  {
    hide Grown, At, Carried, ExprAt, StmtAt, ForAt, StepAt, StmtLen, ExprLen, TestLen, StepLen;
    var c, d := ch.code, dh.code;
    var q := p + TestLen(test);
    var b := q + StepLen(step);
    var m := b + StmtLen(body, 0);
    var back := if step.Some? then q + 3 else p;
    ForHas(ch, test, step, body, names, p);
    CarryTest(ch, dh, test, StepLen(step) + StmtLen(body, 0) + 4, names, p, a, j, exit);
    CarryStep(ch, dh, step, names, p, q, a, j, exit);
    CarryStmt(ch, dh, body, names, InLoop(back, |names|, Some(p + ForLen(test, step, body))), b, a, j, exit);
    CarryInstr(c, d, m, a, j, exit, Loop(m + 3 - back));
    if test.Some? { CarryInstr(c, d, m + 3, a, j, exit, Pop); }
    ForParts(dh, test, step, body, names, p);
  }

  lemma CarryTest(ch: Chunk, dh: Chunk, test: Option<Expr>, offset: nat, names: seq<string>, p: nat, a: nat, j: nat,
                  exit: Option<nat>)
    requires test.Some? ==>
               && ExprAt(ch, test.value, names, p)
               && At(ch.code, p + ExprLen(test.value), JumpIfFalse(offset)) && At(ch.code, p + ExprLen(test.value) + 3, Pop)
    requires Carried(ch.code, dh.code, p, a, j, exit) && p + TestLen(test) <= j && Grown(ch, dh)
    ensures test.Some? ==>
              && ExprAt(dh, test.value, names, p)
              && At(dh.code, p + ExprLen(test.value), JumpIfFalse(offset)) && At(dh.code, p + ExprLen(test.value) + 3, Pop)
    ensures Carried(ch.code, dh.code, p + TestLen(test), a, j, exit)
  {
    hide Grown, At, Carried, ExprAt, ExprLen;
    if test.Some? { CarryCond(ch, dh, test.value, offset, names, p, a, j, exit); }
  }

  lemma CarryStep(ch: Chunk, dh: Chunk, step: Option<Expr>, names: seq<string>, p: nat, q: nat, a: nat, j: nat, exit: Option<nat>)
    requires step.Some? ==> StepAt(ch, step.value, names, p, q)
    requires Carried(ch.code, dh.code, q, a, j, exit) && q + StepLen(step) <= j && Grown(ch, dh)
    ensures step.Some? ==> StepAt(dh, step.value, names, p, q)
    ensures Carried(ch.code, dh.code, q + StepLen(step), a, j, exit)
  {
    hide Grown, At, Carried, ExprAt, ExprLen;
    if step.Some? {
      var n := ExprLen(step.value);
      CarryInstr(ch.code, dh.code, q, a, j, exit, Jump(n + 4));
      CarryExpr(ch, dh, step.value, names, q + 3, a, j, exit);
      CarryInstr(ch.code, dh.code, q + 3 + n, a, j, exit, Pop);
      CarryInstr(ch.code, dh.code, q + 4 + n, a, j, exit, Loop(q + n + 7 - p));
    }
  }

  lemma {:induction false} CarryCases(ch: Chunk, dh: Chunk, cs: Cases, names: seq<string>, t: Target, p: nat, end: nat,
                                      a: nat, j: nat, exit: Option<nat>)
    requires CasesAt(ch, cs, names, t, p, end) && Carried(ch.code, dh.code, p, a, j, exit)
    requires p + CasesLen(cs, Extra(names, t)) <= j && Grown(ch, dh) && Base(t) <= |names|
    ensures CasesAt(dh, cs, names, Fill(t, exit), p, end)
    ensures Carried(ch.code, dh.code, p + CasesLen(cs, Extra(names, t)), a, j, exit)
    decreases cs, 1
  {
    hide Grown, At, Carried, ExprAt, ExprsAt, StmtLen, ExprLen, ExprsLen, StmtAt;
    var c, d := ch.code, dh.code;
    match cs
    case Otherwise(default) =>
      CarryInstr(c, d, p, a, j, exit, Pop);
      if default.Some? { CarryStmt(ch, dh, default.value, names, t, p + 1, a, j, exit); }
    case MoreCases(first, more, body, rest) =>
      var m := p + ExprLen(first) + ExprsLen(more) + MultiLen(more) + 3 + StmtLen(body, Extra(names, t));
      CarryCaseTest(ch, dh, cs, names, t, p, end, a, j, exit);
      CarryStmt(ch, dh, body, names, t, m - StmtLen(body, Extra(names, t)), a, j, exit);
      CarryInstr(c, d, m, a, j, exit, Jump(end - (m + 3)));
      CarryCases(ch, dh, rest, names, t, m + 3, end, a, j, exit);
  }

  lemma CarryCaseTest(ch: Chunk, dh: Chunk, cs: Cases, names: seq<string>, t: Target, p: nat, end: nat, a: nat, j: nat,
                      exit: Option<nat>)
    requires cs.MoreCases? && CasesAt(ch, cs, names, t, p, end) && Carried(ch.code, dh.code, p, a, j, exit) && Grown(ch, dh)
    requires p + ExprLen(cs.first) + ExprsLen(cs.more) + MultiLen(cs.more) + 3 <= j
    ensures var q := p + ExprLen(cs.first) + ExprsLen(cs.more);
            var k := q + MultiLen(cs.more);
            && ExprAt(dh, cs.first, names, p)
            && ExprsAt(dh, cs.more, names, p + ExprLen(cs.first))
            && (cs.more.MoreExprs? ==> At(dh.code, q, MultiCase(Count(cs.more) % 256)))
            && At(dh.code, k, CompareJump(StmtLen(cs.body, Extra(names, t)) + 3))
            && Carried(ch.code, dh.code, k + 3, a, j, exit)
  {
    hide Grown, At, Carried, ExprAt, ExprsAt, StmtLen, ExprLen, ExprsLen, StmtAt, Extra;
    var c, d := ch.code, dh.code;
    var q := p + ExprLen(cs.first) + ExprsLen(cs.more);
    CarryExpr(ch, dh, cs.first, names, p, a, j, exit);
    CarryExprs(ch, dh, cs.more, names, p + ExprLen(cs.first), a, j, exit);
    if cs.more.MoreExprs? { CarryInstr(c, d, q, a, j, exit, MultiCase(Count(cs.more) % 256)); }
    CarryInstr(c, d, q + MultiLen(cs.more), a, j, exit, CompareJump(StmtLen(cs.body, Extra(names, t)) + 3));
  }

  lemma {:induction false} CarryItems(ch: Chunk, dh: Chunk, items: Items, global: bool, names: seq<string>, t: Target,
                                      p: nat, a: nat, j: nat, exit: Option<nat>)
    requires ItemsAt(ch, items, global, names, t, p) && Carried(ch.code, dh.code, p, a, j, exit)
    requires p + ItemsLen(items, global, Extra(names, t)) <= j && Grown(ch, dh) && Base(t) <= |names|
    ensures ItemsAt(dh, items, global, names, Fill(t, exit), p)
    ensures Carried(ch.code, dh.code, p + ItemsLen(items, global, Extra(names, t)), a, j, exit)
    decreases items, 1
  {
    hide Grown, At, Carried, ItemAt, ItemLen;
    if items.MoreItems? {
      var q := p + ItemLen(items.head, global, Extra(names, t));
      CarryItem(ch, dh, items.head, global, names, t, p, a, j, exit);
      CarryItems(ch, dh, items.tail, global, Extend(names, items.head, global), t, q, a, j, exit);
    }
  }

  lemma {:induction false} CarryItem(ch: Chunk, dh: Chunk, item: Item, global: bool, names: seq<string>, t: Target,
                                     p: nat, a: nat, j: nat, exit: Option<nat>)
    requires ItemAt(ch, item, global, names, t, p) && Carried(ch.code, dh.code, p, a, j, exit)
    requires p + ItemLen(item, global, Extra(names, t)) <= j && Grown(ch, dh) && Base(t) <= |names|
    ensures ItemAt(dh, item, global, names, Fill(t, exit), p)
    ensures Carried(ch.code, dh.code, p + ItemLen(item, global, Extra(names, t)), a, j, exit)
    decreases item, 1
  {
    hide Grown, At, Carried, StmtAt, Names, StmtLen, ExprLen, InitAt;
    if item.Perform? {
      CarryStmt(ch, dh, item.s, names, t, p, a, j, exit);
    } else {
      CarryInit(ch, dh, item.init, PushNil, names, p, a, j, exit);
      if global { CarryNames(ch, dh, p + InitLen(item.init), a, j, exit, OP_DEFINE_MODULE, Str(item.name)); }
    }
  }
}
