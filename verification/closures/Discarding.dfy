/** Which variables are discarded by a plain POP. The compiler decides by the marks it has set so far, in the order of the
    text; loops run the text again. Here functions are reduced to what pushes, captures and discards values. Every path
    through them, for every outcome of their conditions, is a list of what the machine does, and the machine does it. */
module Discarding {
  import Values
  import opened Options
  import opened Upvalues

  /** An expression leaves one value. `captured` lists the slots that a closure captures; `Either` is `and` or `or`; a call
      evaluates what is called and the arguments, then runs function number `callee`. */
  datatype Expr =
    | Constant
    | Closure(captured: seq<nat>)
    | Binary(left: Expr, right: Expr)
    | Either(isOr: bool, left: Expr, right: Expr)
    | Apply(called: Expr, callee: nat, args: Exprs)

  datatype Exprs = NoExprs | MoreExprs(head: Expr, tail: Exprs)

  datatype Stmt =
    | Evaluate(e: Expr)
    | Block(items: Items)
    | If(cond: Expr, yes: Stmt, no: Stmt)
    | Loop(test: Expr, step: Expr, body: Stmt)
    | Break
    | Continue
    | Return(e: Expr)

  /** A local is in scope in its own initialiser. */
  datatype Item = Declare(init: Expr) | Perform(s: Stmt)

  datatype Items = NoItems | MoreItems(head: Item, tail: Items)

  datatype Function = Function(arity: nat, body: Items)

  // ---- marks, in the order of the text ----

  /** For each local, whether it is marked as captured. */
  type Marks = seq<bool>

  function Captures(e: Expr): seq<nat>
    decreases e
  {
    match e
    case Constant => []
    case Closure(captured) => captured
    case Binary(l, r) => Captures(l) + Captures(r)
    case Either(_, l, r) => Captures(l) + Captures(r)
    case Apply(called, _, args) => Captures(called) + AllCaptures(args)
  }

  function AllCaptures(es: Exprs): seq<nat>
    decreases es
  {
    match es
    case NoExprs => []
    case MoreExprs(head, tail) => Captures(head) + AllCaptures(tail)
  }

  function Marked(marks: Marks, captured: seq<nat>): (r: Marks)
    ensures |r| == |marks|
  {
    seq(|marks|, i requires 0 <= i < |marks| => marks[i] || i in captured)
  }

  function After(marks: Marks, s: Stmt): (r: Marks)
    ensures |r| == |marks|
    decreases s
  {
    match s
    case Evaluate(e) => Marked(marks, Captures(e))
    case Block(items) => AfterAll(marks, items)[..|marks|]
    case If(cond, yes, no) => After(After(Marked(marks, Captures(cond)), yes), no)
    case Loop(test, step, body) => After(Inside(marks, s), body)
    case Return(e) => Marked(marks, Captures(e))
    case _ => marks
  }

  /** Where the body of a loop begins. */
  function Inside(marks: Marks, s: Stmt): (r: Marks)
    requires s.Loop?
    ensures |r| == |marks|
  {
    Marked(Marked(marks, Captures(s.test)), Captures(s.step))
  }

  function AfterItem(marks: Marks, item: Item): (r: Marks)
    ensures |marks| <= |r|
    decreases item
  {
    match item
    case Declare(init) => Marked(marks + [false], Captures(init))
    case Perform(s) => After(marks, s)
  }

  function AfterAll(marks: Marks, items: Items): (r: Marks)
    ensures |marks| <= |r|
    decreases items
  {
    match items
    case NoItems => marks
    case MoreItems(head, tail) => AfterAll(AfterItem(marks, head), tail)
  }

  /** Captured slots are declared, functions exist and get the arguments they want, and `break` stands in a loop. */
  predicate FitExpr(e: Expr, locals: nat, fns: seq<Function>)
    decreases e
  {
    match e
    case Constant => true
    case Closure(captured) => Declared(captured, locals)
    case Binary(l, r) => FitExpr(l, locals, fns) && FitExpr(r, locals, fns)
    case Either(_, l, r) => FitExpr(l, locals, fns) && FitExpr(r, locals, fns)
    case Apply(called, callee, args) =>
      FitExpr(called, locals, fns) && FitExprs(args, locals, fns) && callee < |fns| && fns[callee].arity == Count(args)
  }

  predicate FitExprs(es: Exprs, locals: nat, fns: seq<Function>)
    decreases es
  {
    es.MoreExprs? ==> FitExpr(es.head, locals, fns) && FitExprs(es.tail, locals, fns)
  }

  function Count(es: Exprs): nat {
    if es.NoExprs? then 0 else 1 + Count(es.tail)
  }

  predicate Fits(s: Stmt, locals: nat, fns: seq<Function>, looping: bool)
    decreases s
  {
    match s
    case Evaluate(e) => FitExpr(e, locals, fns)
    case Block(items) => FitAll(items, locals, fns, looping)
    case If(cond, yes, no) => FitExpr(cond, locals, fns) && Fits(yes, locals, fns, looping) && Fits(no, locals, fns, looping)
    case Loop(test, step, body) => FitExpr(test, locals, fns) && FitExpr(step, locals, fns) && Fits(body, locals, fns, true)
    case Break => looping
    case Continue => looping
    case Return(e) => FitExpr(e, locals, fns)
  }

  predicate Declared(captured: seq<nat>, locals: nat) {
    forall i :: 0 <= i < |captured| ==> captured[i] < locals
  }

  predicate FitItem(item: Item, locals: nat, fns: seq<Function>, looping: bool)
    decreases item
  {
    match item
    case Declare(init) => FitExpr(init, locals + 1, fns)
    case Perform(s) => Fits(s, locals, fns, looping)
  }

  predicate FitAll(items: Items, locals: nat, fns: seq<Function>, looping: bool)
    decreases items
  {
    match items
    case NoItems => true
    case MoreItems(head, tail) =>
      FitItem(head, locals, fns, looping) && FitAll(tail, if head.Declare? then locals + 1 else locals, fns, looping)
  }

  predicate FunctionsFit(fns: seq<Function>) {
    forall k :: 0 <= k < |fns| ==> FitAll(fns[k].body, 1 + fns[k].arity, fns, false)
  }

  lemma {:induction false} CapturesDeclared(e: Expr, locals: nat, fns: seq<Function>)
    requires FitExpr(e, locals, fns)
    ensures Declared(Captures(e), locals)
    decreases e
  {
    match e
    case Constant =>
    case Closure(_) =>
    case Binary(l, r) => CapturesDeclared(l, locals, fns); CapturesDeclared(r, locals, fns);
    case Either(_, l, r) => CapturesDeclared(l, locals, fns); CapturesDeclared(r, locals, fns);
    case Apply(called, _, args) => CapturesDeclared(called, locals, fns); AllDeclared(args, locals, fns);
  }

  lemma {:induction false} AllDeclared(es: Exprs, locals: nat, fns: seq<Function>)
    requires FitExprs(es, locals, fns)
    ensures Declared(AllCaptures(es), locals)
    decreases es
  {
    if es.MoreExprs? {
      CapturesDeclared(es.head, locals, fns);
      AllDeclared(es.tail, locals, fns);
    }
  }

  /** Marks are never taken back. */
  predicate Implies(a: Marks, b: Marks) {
    |a| <= |b| && forall i :: 0 <= i < |a| && a[i] ==> b[i]
  }

  lemma {:induction false} AfterImplies(marks: Marks, s: Stmt)
    ensures Implies(marks, After(marks, s))
    decreases s
  {
    match s
    case Block(items) => AllImplies(marks, items);
    case If(cond, yes, no) =>
      var m := Marked(marks, Captures(cond));
      AfterImplies(m, yes);
      AfterImplies(After(m, yes), no);
    case Loop(test, step, body) => AfterImplies(Inside(marks, s), body);
    case _ =>
  }

  lemma {:induction false} AllImplies(marks: Marks, items: Items)
    ensures Implies(marks, AfterAll(marks, items))
    decreases items
  {
    match items
    case NoItems =>
    case MoreItems(head, tail) =>
      if head.Perform? { AfterImplies(marks, head.s); }
      AllImplies(AfterItem(marks, head), tail);
  }

  // ---- what the marks mean ----

  /** Somewhere in the text a closure captures slot `i`. */
  predicate ExprMentions(e: Expr, i: nat)
    decreases e
  {
    match e
    case Constant => false
    case Closure(captured) => i in captured
    case Binary(l, r) => ExprMentions(l, i) || ExprMentions(r, i)
    case Either(_, l, r) => ExprMentions(l, i) || ExprMentions(r, i)
    case Apply(called, _, args) => ExprMentions(called, i) || ExprsMention(args, i)
  }

  predicate ExprsMention(es: Exprs, i: nat)
    decreases es
  {
    es.MoreExprs? && (ExprMentions(es.head, i) || ExprsMention(es.tail, i))
  }

  predicate StmtMentions(s: Stmt, i: nat)
    decreases s
  {
    match s
    case Evaluate(e) => ExprMentions(e, i)
    case Block(items) => ItemsMention(items, i)
    case If(cond, yes, no) => ExprMentions(cond, i) || StmtMentions(yes, i) || StmtMentions(no, i)
    case Loop(test, step, body) => ExprMentions(test, i) || ExprMentions(step, i) || StmtMentions(body, i)
    case Break => false
    case Continue => false
    case Return(e) => ExprMentions(e, i)
  }

  predicate ItemsMention(items: Items, i: nat)
    decreases items
  {
    items.MoreItems? && (ItemMentions(items.head, i) || ItemsMention(items.tail, i))
  }

  predicate ItemMentions(item: Item, i: nat)
    decreases item
  {
    match item
    case Declare(init) => ExprMentions(init, i)
    case Perform(s) => StmtMentions(s, i)
  }

  lemma {:induction false} CapturesExact(e: Expr, i: nat)
    ensures i in Captures(e) <==> ExprMentions(e, i)
    decreases e
  {
    match e
    case Constant =>
    case Closure(_) =>
    case Binary(l, r) => CapturesExact(l, i); CapturesExact(r, i);
    case Either(_, l, r) => CapturesExact(l, i); CapturesExact(r, i);
    case Apply(called, _, args) => CapturesExact(called, i); AllExactly(args, i);
  }

  lemma {:induction false} AllExactly(es: Exprs, i: nat)
    ensures i in AllCaptures(es) <==> ExprsMention(es, i)
    decreases es
  {
    if es.MoreExprs? {
      CapturesExact(es.head, i);
      AllExactly(es.tail, i);
    }
  }

  /** A variable outside of a statement is marked after it if and only if it was before, or a closure in it captures the
      variable. */
  lemma {:induction false} AfterExact(marks: Marks, s: Stmt, i: nat)
    requires i < |marks|
    ensures After(marks, s)[i] <==> marks[i] || StmtMentions(s, i)
    decreases s
  {
    match s
    case Evaluate(e) => CapturesExact(e, i);
    case Block(items) => ItemsExact(marks, items, i);
    case If(cond, yes, no) =>
      var m := Marked(marks, Captures(cond));
      CapturesExact(cond, i);
      AfterExact(m, yes, i);
      AfterExact(After(m, yes), no, i);
    case Loop(test, step, body) =>
      CapturesExact(test, i);
      CapturesExact(step, i);
      AfterExact(Inside(marks, s), body, i);
    case Break =>
    case Continue =>
    case Return(e) => CapturesExact(e, i);
  }

  lemma {:induction false} ItemsExact(marks: Marks, items: Items, i: nat)
    requires i < |marks|
    ensures AfterAll(marks, items)[i] <==> marks[i] || ItemsMention(items, i)
    decreases items
  {
    match items
    case NoItems =>
    case MoreItems(head, tail) =>
      ItemExact(marks, head, i);
      ItemsExact(AfterItem(marks, head), tail, i);
  }

  /** A new variable is marked by its own initialiser only. */
  lemma {:induction false} ItemExact(marks: Marks, item: Item, i: nat)
    requires i < |AfterItem(marks, item)|
    ensures |AfterItem(marks, item)| == |marks| + if item.Declare? then 1 else 0
    ensures AfterItem(marks, item)[i] <==> (i < |marks| && marks[i]) || ItemMentions(item, i)
    decreases item
  {
    match item
    case Declare(init) => CapturesExact(init, i);
    case Perform(s) => if i < |marks| { AfterExact(marks, s, i); }
  }

  // ---- every path through a program ----

  /** What the machine does: POP takes a temporary value or a variable off the stack. */
  datatype Did =
    | Pushed
    | CapturedSlot(slot: nat)
    | TempPopped
    | VariablePopped
    | Closed
    | Returned(slots: nat)

  datatype Flow = Finished | Broke | Continued | Left | Cut

  /** How a run goes on, which outcomes of conditions are left, and what the machine did. `Cut` when they are used up. */
  datatype Path = Path(flow: Flow, rest: seq<bool>, did: seq<Did>)

  function Then(p: Path, did: seq<Did>): Path {
    p.(did := p.did + did)
  }

  function First(did: seq<Did>, p: Path): Path {
    p.(did := did + p.did)
  }

  /** For the variables from the last one down to number `kept`. */
  function Discards(marks: Marks, kept: nat): seq<Did>
    decreases |marks|
  {
    if |marks| <= kept then []
    else [if marks[|marks| - 1] then Closed else VariablePopped] + Discards(marks[..|marks| - 1], kept)
  }

  /** Uppermost first, each variable as it is marked. */
  lemma {:induction false} DiscardsAre(marks: Marks, kept: nat, i: nat)
    requires kept <= |marks|
    ensures |Discards(marks, kept)| == |marks| - kept
    ensures i < |marks| - kept ==> Discards(marks, kept)[i] == if marks[|marks| - 1 - i] then Closed else VariablePopped
    decreases |marks|
  {
    if kept < |marks| { DiscardsAre(marks[..|marks| - 1], kept, if i == 0 then 0 else i - 1); }
  }

  function CapturedAll(captured: seq<nat>, slots: nat): seq<Did> {
    seq(|captured|, i requires 0 <= i < |captured| => CapturedSlot(slots + captured[i]))
  }

  /** An expression of the frame at `slots`, with `top` values on the stack. Every condition and every call uses up one of
      the `bits`. */
  function ExprPath(fns: seq<Function>, e: Expr, slots: nat, top: nat, bits: seq<bool>): (p: Path)
    ensures |p.rest| <= |bits| && (p.flow == Finished || p.flow == Cut)
    decreases |bits|, e, 1
  {
    match e
    case Constant => Path(Finished, bits, [Pushed])
    case Closure(captured) => Path(Finished, bits, [Pushed] + CapturedAll(captured, slots))
    case Binary(l, r) =>
      var p := ExprPath(fns, l, slots, top, bits);
      if p.flow != Finished then p else
      var q := ExprPath(fns, r, slots, top + 1, p.rest);
      if q.flow != Finished then First(p.did, q) else Then(First(p.did, q), [TempPopped, TempPopped, Pushed])
    case Either(isOr, l, r) =>
      var p := ExprPath(fns, l, slots, top, bits);
      if p.flow != Finished then p
      else if p.rest == [] then p.(flow := Cut)
      else if p.rest[0] == isOr then p.(rest := p.rest[1..])
      else First(p.did + [TempPopped], ExprPath(fns, r, slots, top, p.rest[1..]))
    case Apply(called, callee, args) =>
      var p := ExprPath(fns, called, slots, top, bits);
      if p.flow != Finished then p else First(p.did, ArgsPath(fns, callee, args, slots, top, p.rest))
  }

  /** The rest of a call, when what is called lies at `top`. */
  function ArgsPath(fns: seq<Function>, callee: nat, args: Exprs, slots: nat, top: nat, bits: seq<bool>): (p: Path)
    ensures |p.rest| <= |bits| && (p.flow == Finished || p.flow == Cut)
    decreases |bits|, args, 2
  {
    var q := ExprsPath(fns, args, slots, top + 1, bits);
    if q.flow != Finished then q
    else if q.rest == [] || callee >= |fns| then q.(flow := Cut)
    else First(q.did, CallPath(fns, callee, top, q.rest[1..]))
  }

  function ExprsPath(fns: seq<Function>, es: Exprs, slots: nat, top: nat, bits: seq<bool>): (p: Path)
    ensures |p.rest| <= |bits| && (p.flow == Finished || p.flow == Cut)
    decreases |bits|, es, 1
  {
    match es
    case NoExprs => Path(Finished, bits, [])
    case MoreExprs(head, tail) =>
      var p := ExprPath(fns, head, slots, top, bits);
      if p.flow != Finished then p else First(p.did, ExprsPath(fns, tail, slots, top + 1, p.rest))
  }

  /** The callee and its arguments lie from `slots` on; one value is left in their place. */
  function CallPath(fns: seq<Function>, callee: nat, slots: nat, bits: seq<bool>): (p: Path)
    requires callee < |fns|
    ensures |p.rest| <= |bits| && (p.flow == Finished || p.flow == Cut)
    decreases |bits|
  {
    var p := ItemsPath(fns, fns[callee].body, Unmarked(1 + fns[callee].arity), 1, slots, bits);
    if p.flow == Finished then Then(p, [Pushed, Returned(slots)])
    else if p.flow == Left then p.(flow := Finished)
    else p.(flow := Cut)
  }

  function Unmarked(n: nat): (r: Marks)
    ensures |r| == n && forall i :: 0 <= i < n ==> !r[i]
  {
    seq(n, i => false)
  }

  function StmtPath(fns: seq<Function>, s: Stmt, marks: Marks, base: nat, slots: nat, bits: seq<bool>): (p: Path)
    ensures |p.rest| <= |bits|
    decreases |bits|, s, 3
  {
    var top := slots + |marks|;
    match s
    case Evaluate(e) =>
      var p := ExprPath(fns, e, slots, top, bits);
      if p.flow == Finished then Then(p, [TempPopped]) else p
    case Block(items) =>
      var p := ItemsPath(fns, items, marks, base, slots, bits);
      if p.flow == Finished then Then(p, Discards(AfterAll(marks, items), |marks|)) else p
    case If(cond, yes, no) =>
      var p := ExprPath(fns, cond, slots, top, bits);
      if p.flow != Finished then p
      else if p.rest == [] then p.(flow := Cut)
      else
        var m := Marked(marks, Captures(cond));
        var q := if p.rest[0] then StmtPath(fns, yes, m, base, slots, p.rest[1..])
                 else StmtPath(fns, no, After(m, yes), base, slots, p.rest[1..]);
        First(p.did + [TempPopped], q)
    case Loop(_, _, _) => LoopPath(fns, s, marks, slots, bits)
    case Break => Path(Broke, bits, Discards(marks, base))
    case Continue => Path(Continued, bits, Discards(marks, base))
    case Return(e) =>
      var p := ExprPath(fns, e, slots, top, bits);
      if p.flow == Finished then Then(p.(flow := Left), [Returned(slots)]) else p
  }

  /** One round after the other. */
  function LoopPath(fns: seq<Function>, s: Stmt, marks: Marks, slots: nat, bits: seq<bool>): (p: Path)
    requires s.Loop?
    ensures |p.rest| <= |bits|
    decreases |bits|, s, 2
  {
    var p := RoundPath(fns, s, marks, slots, bits);
    if p.flow == Continued then First(p.did, LoopPath(fns, s, marks, slots, p.rest)) else p
  }

  /** The test, and if it holds the body and the step; `Continued` if another round follows. */
  function RoundPath(fns: seq<Function>, s: Stmt, marks: Marks, slots: nat, bits: seq<bool>): (p: Path)
    requires s.Loop?
    ensures |p.rest| <= |bits| && p.flow != Broke && (p.flow == Continued ==> |p.rest| < |bits|)
    decreases |bits|, s, 1
  {
    var top := slots + |marks|;
    var p := ExprPath(fns, s.test, slots, top, bits);
    if p.flow != Finished then p
    else if p.rest == [] then p.(flow := Cut)
    else if !p.rest[0] then Then(p.(rest := p.rest[1..]), [TempPopped])
    else
      var q := First(p.did + [TempPopped], StmtPath(fns, s.body, Inside(marks, s), |marks|, slots, p.rest[1..]));
      if q.flow == Broke then q.(flow := Finished)
      else if q.flow == Left || q.flow == Cut then q
      else
        var r := First(q.did, ExprPath(fns, s.step, slots, top, q.rest));
        if r.flow == Finished then Then(r.(flow := Continued), [TempPopped]) else r
  }

  function ItemsPath(fns: seq<Function>, items: Items, marks: Marks, base: nat, slots: nat, bits: seq<bool>): (p: Path)
    ensures |p.rest| <= |bits|
    decreases |bits|, items, 3
  {
    match items
    case NoItems => Path(Finished, bits, [])
    case MoreItems(head, tail) =>
      var p := ItemPath(fns, head, marks, base, slots, bits);
      if p.flow != Finished then p
      else First(p.did, ItemsPath(fns, tail, AfterItem(marks, head), base, slots, p.rest))
  }

  function ItemPath(fns: seq<Function>, item: Item, marks: Marks, base: nat, slots: nat, bits: seq<bool>): (p: Path)
    ensures |p.rest| <= |bits|
    decreases |bits|, item, 3
  {
    match item
    case Declare(init) => ExprPath(fns, init, slots, slots + |marks|, bits)
    case Perform(s) => StmtPath(fns, s, marks, base, slots, bits)
  }

  // ---- what a path does to the stack ----

  /** How high the stack is, on which slots upvalues are open, and from which slots on they have been closed. */
  datatype Shape = Shape(height: nat, open: set<nat>, closed: set<nat>)

  const START := Shape(0, {}, {})

  /** A variable may be popped plainly only if nothing is open on its slot. */
  predicate Possible(m: Shape, d: Did) {
    match d
    case Pushed => true
    case CapturedSlot(slot) => slot < m.height
    case TempPopped => m.height > 0
    case VariablePopped => m.height > 0 && m.height - 1 !in m.open
    case Closed => m.height > 0
    case Returned(slots) => slots < m.height
  }

  function Lower(open: set<nat>, n: nat): set<nat> {
    set s | s in open && s < n
  }

  function Next(m: Shape, d: Did): Shape
    requires Possible(m, d)
  {
    match d
    case Pushed => m.(height := m.height + 1)
    case CapturedSlot(slot) => m.(open := m.open + {slot})
    case TempPopped => m.(height := m.height - 1)
    case VariablePopped => m.(height := m.height - 1)
    case Closed => Shape(m.height - 1, Lower(m.open, m.height - 1), m.closed + {m.height - 1})
    case Returned(slots) => Shape(slots + 1, Lower(m.open, slots), m.closed + {slots})
  }

  /** None if something on the way is not possible. */
  function Replay(m: Shape, did: seq<Did>): Option<Shape>
    decreases |did|
  {
    if did == [] then Some(m)
    else
      var r := Replay(m, did[..|did| - 1]);
      if r.Some? && Possible(r.value, did[|did| - 1]) then Some(Next(r.value, did[|did| - 1])) else None
  }

  lemma {:induction false} ReplayBoth(m: Shape, a: seq<Did>, b: seq<Did>)
    ensures Replay(m, a + b) == if Replay(m, a).Some? then Replay(Replay(m, a).value, b) else None
    decreases |b|
  {
    if b == [] {
      assert a + b == a;
    } else {
      assert (a + b)[..|a + b| - 1] == a + b[..|b| - 1];
      ReplayBoth(m, a, b[..|b| - 1]);
    }
  }

  lemma ReplayNothing(m: Shape)
    ensures Replay(m, []) == Some(m)
  {
  }

  lemma ReplayOne(m: Shape, d: Did)
    ensures Replay(m, [d]) == if Possible(m, d) then Some(Next(m, d)) else None
  {
    assert [d][..0] == [];
    ReplayNothing(m);
  }

  /** The slots of the frame that starts at `slots`, and of all above it, are open only as far as `bound` allows. */
  predicate Within(m: Shape, slots: nat, bound: Marks) {
    forall s :: s in m.open && s >= slots ==> s < slots + |bound| && bound[s - slots]
  }

  /** Nothing has changed below `slots`, nothing has been closed there, and `slots` only by a RETURN. */
  predicate Calm(m: Shape, r: Shape, slots: nat, did: seq<Did>) {
    && (forall s :: 0 <= s < slots ==> (s in m.open <==> s in r.open))
    && forall s :: s in r.closed ==> s in m.closed || s > slots || (s == slots && Returned(slots) in did)
  }

  /** What holds after a path from `m` that pushes a value, or is cut. */
  predicate Yields(m: Shape, p: Path, slots: nat, bound: Marks, height: nat) {
    var r := Replay(m, p.did);
    && r.Some? && Calm(m, r.value, slots, p.did)
    && (p.flow == Cut ==> p.rest == [])
    && (p.flow == Finished ==> r.value.height == height && Within(r.value, slots, bound))
  }

  predicate Covers(bound: Marks, captured: seq<nat>) {
    forall i :: 0 <= i < |captured| ==> captured[i] < |bound| && bound[captured[i]]
  }

  lemma {:induction false} CapturedSafe(m: Shape, captured: seq<nat>, slots: nat, bound: Marks)
    requires Covers(bound, captured) && Within(m, slots, bound) && slots + |bound| <= m.height
    ensures var r := Replay(m, CapturedAll(captured, slots));
            r.Some? && r.value.height == m.height && Within(r.value, slots, bound) && Calm(m, r.value, slots, [])
    decreases |captured|
  {
    var n := |captured|;
    if n > 0 {
      assert CapturedAll(captured, slots)[..n - 1] == CapturedAll(captured[..n - 1], slots);
      CapturedSafe(m, captured[..n - 1], slots, bound);
    }
  }

  function SlotsOf(captured: seq<nat>, slots: nat): set<nat> {
    set c | c in captured :: slots + c
  }

  lemma SlotsMore(captured: seq<nat>, slots: nat, last: nat)
    ensures SlotsOf(captured + [last], slots) == SlotsOf(captured, slots) + {slots + last}
  {
    forall s
      ensures s in SlotsOf(captured + [last], slots) <==> s in SlotsOf(captured, slots) || s == slots + last
    {
      if s in SlotsOf(captured, slots) {
        var c :| c in captured && s == slots + c;
        assert c in captured + [last];
      }
      assert last in captured + [last];
    }
  }

  lemma {:induction false} CapturedOpen(m: Shape, captured: seq<nat>, slots: nat)
    requires forall i :: 0 <= i < |captured| ==> slots + captured[i] < m.height
    ensures Replay(m, CapturedAll(captured, slots)) == Some(m.(open := m.open + SlotsOf(captured, slots)))
    decreases |captured|
  {
    var n := |captured|;
    if n > 0 {
      assert CapturedAll(captured, slots)[..n - 1] == CapturedAll(captured[..n - 1], slots);
      CapturedOpen(m, captured[..n - 1], slots);
      assert captured == captured[..n - 1] + [captured[n - 1]];
      SlotsMore(captured[..n - 1], slots, captured[n - 1]);
      assert m.open + SlotsOf(captured[..n - 1], slots) + {slots + captured[n - 1]} == m.open + SlotsOf(captured, slots);
    } else {
      assert m.open + SlotsOf(captured, slots) == m.open;
    }
  }

  /** A closure is one more value, and then exactly the slots that it captures are open besides those that were; its own
      slot may be one of them. */
  lemma ClosureOpens(fns: seq<Function>, e: Expr, slots: nat, bits: seq<bool>, m: Shape)
    requires e.Closure? && forall i :: 0 <= i < |e.captured| ==> slots + e.captured[i] <= m.height
    ensures var p := ExprPath(fns, e, slots, m.height, bits);
            && p.flow == Finished && p.rest == bits
            && Replay(m, p.did) == Some(Shape(m.height + 1, m.open + set c | c in e.captured :: slots + c, m.closed))
  {
    hide Replay;
    var r := m.(height := m.height + 1);
    ReplayOne(m, Pushed);
    CapturedOpen(r, e.captured, slots);
    ReplayBoth(m, [Pushed], CapturedAll(e.captured, slots));
  }

  lemma CoversParts(bound: Marks, a: seq<nat>, b: seq<nat>)
    requires Covers(bound, a + b)
    ensures Covers(bound, a) && Covers(bound, b)
  {
    forall i | 0 <= i < |b|
      ensures b[i] < |bound| && bound[b[i]]
    {
      assert (a + b)[|a| + i] == b[i];
    }
    forall i | 0 <= i < |a|
      ensures a[i] < |bound| && bound[a[i]]
    {
      assert (a + b)[i] == a[i];
    }
  }

  lemma FirstYields(m: Shape, did: seq<Did>, q: Path, slots: nat, bound: Marks, height: nat)
    requires Replay(m, did).Some? && Calm(m, Replay(m, did).value, slots, did)
    requires Yields(Replay(m, did).value, q, slots, bound, height)
    ensures Yields(m, First(did, q), slots, bound, height)
  {
    ReplayBoth(m, did, q.did);
  }

  /** However the conditions turn out and whatever is called, an expression leaves one more value. It may stand in the
      initialiser of the last variable, whose slot then is the first one above the stack. */
  lemma {:induction false} ExprSafe(fns: seq<Function>, e: Expr, slots: nat, bound: Marks, bits: seq<bool>, m: Shape)
    requires FunctionsFit(fns) && FitExpr(e, |bound|, fns) && Covers(bound, Captures(e))
    requires slots + |bound| <= m.height + 1 && slots <= m.height && Within(m, slots, bound)
    ensures Yields(m, ExprPath(fns, e, slots, m.height, bits), slots, bound, m.height + 1)
    decreases |bits|, e, 1
  {
    hide Replay, Covers, FunctionsFit, Within, Yields, FitExpr;
    match e
    case Constant => OnePushed(m, slots, bound, bits);
    case Closure(captured) => ClosureSafe(m, captured, slots, bound, bits);
    case Binary(l, r) => BinarySafe(fns, e, slots, bound, bits, m);
    case Either(_, l, r) => EitherSafe(fns, e, slots, bound, bits, m);
    case Apply(called, callee, args) => ApplySafe(fns, e, slots, bound, bits, m);
  }

  lemma OnePushed(m: Shape, slots: nat, bound: Marks, bits: seq<bool>)
    requires slots <= m.height && Within(m, slots, bound)
    ensures Yields(m, Path(Finished, bits, [Pushed]), slots, bound, m.height + 1)
  {
    hide Replay;
    ReplayOne(m, Pushed);
  }

  lemma ClosureSafe(m: Shape, captured: seq<nat>, slots: nat, bound: Marks, bits: seq<bool>)
    requires Covers(bound, captured) && slots + |bound| <= m.height + 1 && slots <= m.height && Within(m, slots, bound)
    ensures Yields(m, Path(Finished, bits, [Pushed] + CapturedAll(captured, slots)), slots, bound, m.height + 1)
  {
    hide Replay, Covers;
    ReplayOne(m, Pushed);
    var r := m.(height := m.height + 1);
    CapturedSafe(r, captured, slots, bound);
    ReplayBoth(m, [Pushed], CapturedAll(captured, slots));
  }

  lemma {:induction false} BinarySafe(fns: seq<Function>, e: Expr, slots: nat, bound: Marks, bits: seq<bool>, m: Shape)
    requires FunctionsFit(fns) && e.Binary? && FitExpr(e, |bound|, fns) && Covers(bound, Captures(e))
    requires slots + |bound| <= m.height + 1 && slots <= m.height && Within(m, slots, bound)
    ensures Yields(m, ExprPath(fns, e, slots, m.height, bits), slots, bound, m.height + 1)
    decreases |bits|, e, 0
  {
    hide Replay, Covers, FunctionsFit, Within, Calm;
    CoversParts(bound, Captures(e.left), Captures(e.right));
    ExprSafe(fns, e.left, slots, bound, bits, m);
    var p := ExprPath(fns, e.left, slots, m.height, bits);
    if p.flow == Finished {
      var r := Replay(m, p.did).value;
      ExprSafe(fns, e.right, slots, bound, p.rest, r);
      var q := ExprPath(fns, e.right, slots, m.height + 1, p.rest);
      FirstYields(m, p.did, q, slots, bound, m.height + 2);
      if q.flow == Finished { Combined(m, First(p.did, q), slots, bound); }
    }
  }

  /** Two operands go, and their result comes. */
  lemma Combined(m: Shape, p: Path, slots: nat, bound: Marks)
    requires Yields(m, p, slots, bound, m.height + 2) && p.flow == Finished
    ensures Yields(m, Then(p, [TempPopped, TempPopped, Pushed]), slots, bound, m.height + 1)
  {
    hide Replay, Within;
    var r := Replay(m, p.did).value;
    assert [TempPopped, TempPopped, Pushed] == [TempPopped] + ([TempPopped] + [Pushed]);
    ReplayBoth(m, p.did, [TempPopped, TempPopped, Pushed]);
    ReplayOne(r, TempPopped);
    ReplayBoth(r, [TempPopped], [TempPopped] + [Pushed]);
    var one := r.(height := m.height + 1);
    ReplayOne(one, TempPopped);
    ReplayBoth(one, [TempPopped], [Pushed]);
    ReplayOne(one.(height := m.height), Pushed);
    WithinHeight(r, slots, bound, m.height + 1);
  }

  lemma WithinHeight(m: Shape, slots: nat, bound: Marks, height: nat)
    requires Within(m, slots, bound)
    ensures Within(m.(height := height), slots, bound)
  {
  }

  /** A value that is popped after it has been tested or is not wanted. */
  lemma Popped(m: Shape, p: Path, slots: nat, bound: Marks)
    requires Yields(m, p, slots, bound, m.height + 1) && p.flow == Finished
    ensures Yields(m, Then(p, [TempPopped]), slots, bound, m.height)
  {
    hide Replay, Within;
    var r := Replay(m, p.did).value;
    ReplayBoth(m, p.did, [TempPopped]);
    ReplayOne(r, TempPopped);
    WithinHeight(r, slots, bound, m.height);
  }

  lemma {:induction false} EitherSafe(fns: seq<Function>, e: Expr, slots: nat, bound: Marks, bits: seq<bool>, m: Shape)
    requires FunctionsFit(fns) && e.Either? && FitExpr(e, |bound|, fns) && Covers(bound, Captures(e))
    requires slots + |bound| <= m.height + 1 && slots <= m.height && Within(m, slots, bound)
    ensures Yields(m, ExprPath(fns, e, slots, m.height, bits), slots, bound, m.height + 1)
    decreases |bits|, e, 0
  {
    hide Replay, Covers, FunctionsFit, Within, Calm;
    CoversParts(bound, Captures(e.left), Captures(e.right));
    ExprSafe(fns, e.left, slots, bound, bits, m);
    var p := ExprPath(fns, e.left, slots, m.height, bits);
    if p.flow == Finished && p.rest != [] && p.rest[0] != e.isOr {
      Popped(m, p, slots, bound);
      var r := Replay(m, p.did + [TempPopped]).value;
      ExprSafe(fns, e.right, slots, bound, p.rest[1..], r);
      FirstYields(m, p.did + [TempPopped], ExprPath(fns, e.right, slots, m.height, p.rest[1..]), slots, bound, m.height + 1);
    }
  }

  lemma {:induction false} ApplySafe(fns: seq<Function>, e: Expr, slots: nat, bound: Marks, bits: seq<bool>, m: Shape)
    requires FunctionsFit(fns) && e.Apply? && FitExpr(e, |bound|, fns) && Covers(bound, Captures(e))
    requires slots + |bound| <= m.height + 1 && slots <= m.height && Within(m, slots, bound)
    ensures Yields(m, ExprPath(fns, e, slots, m.height, bits), slots, bound, m.height + 1)
    decreases |bits|, e, 0
  {
    hide Replay, Covers, FunctionsFit, Within, Calm, ArgsPath;
    CoversParts(bound, Captures(e.called), AllCaptures(e.args));
    ExprSafe(fns, e.called, slots, bound, bits, m);
    var p := ExprPath(fns, e.called, slots, m.height, bits);
    if p.flow == Finished {
      var r := Replay(m, p.did).value;
      ArgsSafe(fns, e.callee, e.args, slots, bound, p.rest, r, m.height);
      FirstYields(m, p.did, ArgsPath(fns, e.callee, e.args, slots, m.height, p.rest), slots, bound, m.height + 1);
    }
  }

  lemma {:induction false} ArgsSafe(fns: seq<Function>, callee: nat, args: Exprs, slots: nat, bound: Marks, bits: seq<bool>,
      m: Shape, top: nat)
    requires FunctionsFit(fns) && callee < |fns| && fns[callee].arity == Count(args)
    requires FitExprs(args, |bound|, fns) && Covers(bound, AllCaptures(args))
    requires slots + |bound| <= top + 1 && slots <= top && m.height == top + 1 && Within(m, slots, bound)
    ensures Yields(m, ArgsPath(fns, callee, args, slots, top, bits), slots, bound, top + 1)
    decreases |bits|, args, 2
  {
    hide Replay, Covers, FunctionsFit, Within, Calm, CallPath, ExprsPath;
    ExprsSafe(fns, args, slots, bound, bits, m);
    var q := ExprsPath(fns, args, slots, top + 1, bits);
    if q.flow == Finished && q.rest != [] {
      var frame := Replay(m, q.did).value;
      SlotZero(frame, slots, bound, top);
      CallSafe(fns, callee, top, q.rest[1..], frame);
      CalledYields(m, q, CallPath(fns, callee, top, q.rest[1..]), slots, bound, top + 1 + Count(args), top);
    }
  }

  /** What is called may lie in the slot of a variable whose initialiser this is. */
  lemma SlotZero(m: Shape, slots: nat, bound: Marks, top: nat)
    requires Within(m, slots, bound) && slots <= top && slots + |bound| <= top + 1
    ensures Within(m, top, [true])
  {
  }

  /** The call itself, after `p` has pushed the arguments. */
  lemma CalledYields(m: Shape, p: Path, c: Path, slots: nat, bound: Marks, height: nat, top: nat)
    requires slots <= top && p.flow == Finished && Yields(m, p, slots, bound, height)
    requires Yields(Replay(m, p.did).value, c, top, [], top + 1)
    ensures Yields(m, First(p.did, c), slots, bound, top + 1)
  {
    hide Replay;
    ReplayBoth(m, p.did, c.did);
  }

  lemma {:induction false} ExprsSafe(fns: seq<Function>, es: Exprs, slots: nat, bound: Marks, bits: seq<bool>, m: Shape)
    requires FunctionsFit(fns) && FitExprs(es, |bound|, fns) && Covers(bound, AllCaptures(es))
    requires slots + |bound| <= m.height + 1 && slots <= m.height && Within(m, slots, bound)
    ensures Yields(m, ExprsPath(fns, es, slots, m.height, bits), slots, bound, m.height + Count(es))
    decreases |bits|, es, 1
  {
    hide Covers, FunctionsFit, Within, Calm;
    match es
    case NoExprs => CalmSame(m, slots);
    case MoreExprs(head, tail) =>
      hide Replay;
      CoversParts(bound, Captures(head), AllCaptures(tail));
      ExprSafe(fns, head, slots, bound, bits, m);
      var p := ExprPath(fns, head, slots, m.height, bits);
      if p.flow == Finished {
        var r := Replay(m, p.did).value;
        ExprsSafe(fns, tail, slots, bound, p.rest, r);
        FirstYields(m, p.did, ExprsPath(fns, tail, slots, m.height + 1, p.rest), slots, bound, m.height + Count(es));
      }
  }

  lemma CalmSame(m: Shape, slots: nat)
    ensures Calm(m, m, slots, [])
  {
  }

  /** A frame is run and discarded; one value is left, on which nothing is open. */
  lemma {:induction false} CallSafe(fns: seq<Function>, callee: nat, top: nat, bits: seq<bool>, m: Shape)
    requires FunctionsFit(fns) && callee < |fns| && m.height == top + 1 + fns[callee].arity && Within(m, top, [true])
    ensures Yields(m, CallPath(fns, callee, top, bits), top, [], top + 1)
    decreases |bits|
  {
    hide Replay, Within, Calm, FunctionsFit, AfterAll, FitAll, ItemsPath, Allowed;
    var f := fns[callee];
    var marks := Unmarked(1 + f.arity);
    FitsBody(fns, callee);
    WithinMore(m, top, [true], Bound([true], marks));
    ItemsSafe(fns, f.body, marks, [true], false, top, bits, m);
    var p := ItemsPath(fns, f.body, marks, 1, top, bits);
    if p.flow == Finished {
      Returns(m, p, AfterAll(marks, f.body), top);
    }
  }

  lemma FitsBody(fns: seq<Function>, callee: nat)
    requires FunctionsFit(fns) && callee < |fns|
    ensures var marks := Unmarked(1 + fns[callee].arity);
            FitAll(fns[callee].body, |marks|, fns, false) && Allowed([true], AfterAll(marks, fns[callee].body))
  {
    var marks := Unmarked(1 + fns[callee].arity);
    assert |AfterAll(marks, fns[callee].body)| >= |marks|;
  }

  /** The end of a function: nil is pushed and returned. */
  lemma Returns(m: Shape, p: Path, after: Marks, top: nat)
    requires after != [] && p.flow == Finished && Goes(m, p, top, [true], after, false)
    ensures Yields(m, Then(p, [Pushed, Returned(top)]), top, [], top + 1)
  {
    hide Replay;
    var r := Replay(m, p.did).value;
    assert [Pushed, Returned(top)] == [Pushed] + [Returned(top)];
    ReplayBoth(m, p.did, [Pushed, Returned(top)]);
    ReplayBoth(r, [Pushed], [Returned(top)]);
    ReplayOne(r, Pushed);
    ReplayOne(r.(height := r.height + 1), Returned(top));
  }

  // ---- initialisers ----

  /** An operand that is evaluated first, or instead, calls something; what is called lies in the slot of the result. */
  predicate CallsHere(e: Expr)
    decreases e
  {
    match e
    case Constant => false
    case Closure(_) => false
    case Binary(l, _) => CallsHere(l)
    case Either(_, l, r) => CallsHere(l) || CallsHere(r)
    case Apply(_, _, _) => true
  }

  lemma {:induction false} ReturnedCloses(m: Shape, did: seq<Did>, slots: nat)
    requires Replay(m, did).Some?
    ensures m.closed <= Replay(m, did).value.closed && (Returned(slots) in did ==> slots in Replay(m, did).value.closed)
    decreases |did|
  {
    if did != [] {
      ReturnedCloses(m, did[..|did| - 1], slots);
      assert did == did[..|did| - 1] + [did[|did| - 1]];
    }
  }

  /** Nothing below `top` has been closed on the path, and `top` only by a call that lay there and has returned. */
  predicate Spares(m: Shape, did: seq<Did>, top: nat) {
    var r := Replay(m, did);
    r.Some? && forall s :: s in r.value.closed ==> s in m.closed || s > top || (s == top && Returned(top) in did)
  }

  lemma SparesBoth(m: Shape, a: seq<Did>, b: seq<Did>, top: nat)
    requires Spares(m, a, top) && Spares(Replay(m, a).value, b, top)
    ensures Spares(m, a + b, top)
  {
    ReplayBoth(m, a, b);
  }

  lemma SparesMore(m: Shape, did: seq<Did>, top: nat, above: nat)
    requires Spares(m, did, above) && top < above
    ensures Spares(m, did, top)
  {
  }

  lemma {:induction false} ClosesNothing(m: Shape, did: seq<Did>, top: nat)
    requires Replay(m, did).Some? && forall i :: 0 <= i < |did| ==> !did[i].Closed? && !did[i].Returned?
    ensures Spares(m, did, top) && Returned(top) !in did
    decreases |did|
  {
    if did != [] { ClosesNothing(m, did[..|did| - 1], top); }
  }

  /** In the initialiser of the variable in slot `m.height`, and counted from its beginning, the slot is closed if and only
      if a call whose callee lay there returns, for which the text must have one in that place; nothing below is closed. */
  lemma InitialiserCloses(fns: seq<Function>, init: Expr, slots: nat, bound: Marks, bits: seq<bool>, m: Shape)
    requires FunctionsFit(fns) && FitExpr(init, |bound|, fns) && Covers(bound, Captures(init))
    requires slots + |bound| <= m.height + 1 && slots <= m.height && Within(m, slots, bound) && m.closed == {}
    ensures var p := ExprPath(fns, init, slots, m.height, bits);
            var r := Replay(m, p.did);
            && r.Some? && (forall s :: s in r.value.closed ==> s >= m.height)
            && (m.height in r.value.closed <==> Returned(m.height) in p.did)
            && (m.height in r.value.closed ==> CallsHere(init))
  {
    hide Replay, Covers, FunctionsFit, Within, FitExpr, ExprPath, Captures, CallsHere;
    ExprSpares(fns, init, slots, bound, bits, m);
    ReturnedCloses(m, ExprPath(fns, init, slots, m.height, bits).did, m.height);
  }

  lemma {:induction false} ExprSpares(fns: seq<Function>, e: Expr, slots: nat, bound: Marks, bits: seq<bool>, m: Shape)
    requires FunctionsFit(fns) && FitExpr(e, |bound|, fns) && Covers(bound, Captures(e))
    requires slots + |bound| <= m.height + 1 && slots <= m.height && Within(m, slots, bound)
    ensures var p := ExprPath(fns, e, slots, m.height, bits);
            Spares(m, p.did, m.height) && (Returned(m.height) in p.did ==> CallsHere(e))
    decreases e, 1
  {
    hide Replay, Covers, FunctionsFit, Within, Calm, CallPath, Spares;
    var p := ExprPath(fns, e, slots, m.height, bits);
    ExprSafe(fns, e, slots, bound, bits, m);
    match e
    case Constant => ClosesNothing(m, p.did, m.height);
    case Closure(captured) => ClosesNothing(m, p.did, m.height);
    case Binary(l, r) => BinarySpares(fns, e, slots, bound, bits, m);
    case Either(_, l, r) => EitherSpares(fns, e, slots, bound, bits, m);
    case Apply(called, callee, args) => ApplySpares(fns, e, slots, bound, bits, m);
  }

  lemma {:induction false} BinarySpares(fns: seq<Function>, e: Expr, slots: nat, bound: Marks, bits: seq<bool>, m: Shape)
    requires FunctionsFit(fns) && e.Binary? && FitExpr(e, |bound|, fns) && Covers(bound, Captures(e))
    requires slots + |bound| <= m.height + 1 && slots <= m.height && Within(m, slots, bound)
    ensures var p := ExprPath(fns, e, slots, m.height, bits);
            Spares(m, p.did, m.height) && (Returned(m.height) in p.did ==> CallsHere(e))
    decreases e, 0
  {
    hide Replay, Covers, FunctionsFit, Within, Calm, CallPath, Spares;
    CoversParts(bound, Captures(e.left), Captures(e.right));
    ExprSafe(fns, e.left, slots, bound, bits, m);
    ExprSpares(fns, e.left, slots, bound, bits, m);
    var p := ExprPath(fns, e.left, slots, m.height, bits);
    if p.flow == Finished {
      var r := Replay(m, p.did).value;
      ExprSafe(fns, e.right, slots, bound, p.rest, r);
      RightSpares(fns, e.right, slots, bound, p.rest, r);
      var q := ExprPath(fns, e.right, slots, m.height + 1, p.rest);
      SparesBoth(m, p.did, q.did, m.height);
      if q.flow == Finished {
        FirstYields(m, p.did, q, slots, bound, m.height + 2);
        Combined(m, First(p.did, q), slots, bound);
        ReplayBoth(m, p.did + q.did, [TempPopped, TempPopped, Pushed]);
        ClosesNothing(Replay(m, p.did + q.did).value, [TempPopped, TempPopped, Pushed], m.height);
        SparesBoth(m, p.did + q.did, [TempPopped, TempPopped, Pushed], m.height);
      }
    }
  }

  /** What is evaluated one slot above spares the slot. */
  lemma {:induction false} RightSpares(fns: seq<Function>, e: Expr, slots: nat, bound: Marks, bits: seq<bool>, m: Shape)
    requires FunctionsFit(fns) && FitExpr(e, |bound|, fns) && Covers(bound, Captures(e))
    requires slots + |bound| <= m.height && slots < m.height && Within(m, slots, bound)
    ensures var p := ExprPath(fns, e, slots, m.height, bits);
            Spares(m, p.did, m.height - 1) && Returned(m.height - 1) !in p.did
    decreases e, 2
  {
    hide Replay, Covers, FunctionsFit, Calm, ExprPath, FitExpr, Captures;
    var p := ExprPath(fns, e, slots, m.height, bits);
    ExprSpares(fns, e, slots, bound, bits, m);
    var clean := m.(closed := {});
    ExprSpares(fns, e, slots, bound, bits, clean);
    ReturnedCloses(clean, p.did, m.height - 1);
  }

  lemma {:induction false} EitherSpares(fns: seq<Function>, e: Expr, slots: nat, bound: Marks, bits: seq<bool>, m: Shape)
    requires FunctionsFit(fns) && e.Either? && FitExpr(e, |bound|, fns) && Covers(bound, Captures(e))
    requires slots + |bound| <= m.height + 1 && slots <= m.height && Within(m, slots, bound)
    ensures var p := ExprPath(fns, e, slots, m.height, bits);
            Spares(m, p.did, m.height) && (Returned(m.height) in p.did ==> CallsHere(e))
    decreases e, 0
  {
    hide Replay, Covers, FunctionsFit, Within, Calm, CallPath, Spares;
    CoversParts(bound, Captures(e.left), Captures(e.right));
    ExprSafe(fns, e.left, slots, bound, bits, m);
    ExprSpares(fns, e.left, slots, bound, bits, m);
    var p := ExprPath(fns, e.left, slots, m.height, bits);
    if p.flow == Finished && p.rest != [] && p.rest[0] != e.isOr {
      Popped(m, p, slots, bound);
      ReplayBoth(m, p.did, [TempPopped]);
      ClosesNothing(Replay(m, p.did).value, [TempPopped], m.height);
      SparesBoth(m, p.did, [TempPopped], m.height);
      var r := Replay(m, p.did + [TempPopped]).value;
      ExprSpares(fns, e.right, slots, bound, p.rest[1..], r);
      SparesBoth(m, p.did + [TempPopped], ExprPath(fns, e.right, slots, m.height, p.rest[1..]).did, m.height);
    }
  }

  lemma {:induction false} ApplySpares(fns: seq<Function>, e: Expr, slots: nat, bound: Marks, bits: seq<bool>, m: Shape)
    requires FunctionsFit(fns) && e.Apply? && FitExpr(e, |bound|, fns) && Covers(bound, Captures(e))
    requires slots + |bound| <= m.height + 1 && slots <= m.height && Within(m, slots, bound)
    ensures Spares(m, ExprPath(fns, e, slots, m.height, bits).did, m.height)
    decreases e, 0
  {
    hide Replay, Covers, FunctionsFit, Within, Calm, ArgsPath, Spares;
    CoversParts(bound, Captures(e.called), AllCaptures(e.args));
    ExprSafe(fns, e.called, slots, bound, bits, m);
    ExprSpares(fns, e.called, slots, bound, bits, m);
    var p := ExprPath(fns, e.called, slots, m.height, bits);
    if p.flow == Finished {
      var r := Replay(m, p.did).value;
      ArgsSpare(fns, e.callee, e.args, slots, bound, p.rest, r, m.height);
      SparesBoth(m, p.did, ArgsPath(fns, e.callee, e.args, slots, m.height, p.rest).did, m.height);
    }
  }

  lemma {:induction false} ArgsSpare(fns: seq<Function>, callee: nat, args: Exprs, slots: nat, bound: Marks,
      bits: seq<bool>,
      m: Shape, top: nat)
    requires FunctionsFit(fns) && callee < |fns| && fns[callee].arity == Count(args)
    requires FitExprs(args, |bound|, fns) && Covers(bound, AllCaptures(args))
    requires slots + |bound| <= top + 1 && slots <= top && m.height == top + 1 && Within(m, slots, bound)
    ensures Spares(m, ArgsPath(fns, callee, args, slots, top, bits).did, top)
    decreases args, 2
  {
    hide Replay, Covers, FunctionsFit, Within, Calm, CallPath, ExprsPath, Spares;
    ExprsSafe(fns, args, slots, bound, bits, m);
    AllSpares(fns, args, slots, bound, bits, m, top);
    var q := ExprsPath(fns, args, slots, top + 1, bits);
    if q.flow == Finished && q.rest != [] {
      var frame := Replay(m, q.did).value;
      SlotZero(frame, slots, bound, top);
      CallSafe(fns, callee, top, q.rest[1..], frame);
      CallSpares(frame, CallPath(fns, callee, top, q.rest[1..]), top);
      SparesBoth(m, q.did, CallPath(fns, callee, top, q.rest[1..]).did, top);
    }
  }

  lemma CallSpares(m: Shape, c: Path, top: nat)
    requires Yields(m, c, top, [], top + 1)
    ensures Spares(m, c.did, top)
  {
    hide Replay;
  }

  lemma {:induction false} AllSpares(fns: seq<Function>, es: Exprs, slots: nat, bound: Marks, bits: seq<bool>,
      m: Shape, top: nat)
    requires FunctionsFit(fns) && FitExprs(es, |bound|, fns) && Covers(bound, AllCaptures(es))
    requires slots + |bound| <= m.height + 1 && slots <= m.height && Within(m, slots, bound) && top < m.height
    ensures Spares(m, ExprsPath(fns, es, slots, m.height, bits).did, top)
    decreases es, 1
  {
    hide Replay, Covers, FunctionsFit, Within, Calm, Spares;
    match es
    case NoExprs =>
      ReplayNothing(m);
      ClosesNothing(m, [], top);
    case MoreExprs(head, tail) =>
      CoversParts(bound, Captures(head), AllCaptures(tail));
      ExprSafe(fns, head, slots, bound, bits, m);
      ExprSpares(fns, head, slots, bound, bits, m);
      var p := ExprPath(fns, head, slots, m.height, bits);
      SparesMore(m, p.did, top, m.height);
      if p.flow == Finished {
        var r := Replay(m, p.did).value;
        AllSpares(fns, tail, slots, bound, p.rest, r, top);
        SparesBoth(m, p.did, ExprsPath(fns, tail, slots, m.height + 1, p.rest).did, top);
      }
  }

  // ---- statements ----

  /** While a loop runs, the variables outside of it may be captured by anything in the loop; those inside it only by
      what stands before in the text. */
  function Bound(outer: Marks, marks: Marks): (r: Marks)
    requires |outer| <= |marks|
    ensures |r| == |marks|
  {
    outer + marks[|outer|..]
  }

  /** What is open in the part of a loop's text that has run does no harm outside. */
  predicate Allowed(outer: Marks, after: Marks) {
    |outer| <= |after| && Implies(after[..|outer|], outer)
  }

  lemma WithinMore(m: Shape, slots: nat, a: Marks, b: Marks)
    requires Within(m, slots, a) && Implies(a, b)
    ensures Within(m, slots, b)
  {
  }

  lemma AllowedEarlier(outer: Marks, marks: Marks, after: Marks)
    requires |outer| <= |marks| && Implies(marks, after) && Allowed(outer, after)
    ensures Allowed(outer, marks) && Implies(Bound(outer, marks), Bound(outer, after))
  {
    forall i | 0 <= i < |outer| && marks[i]
      ensures outer[i]
    {
      assert after[..|outer|][i];
    }
  }

  /** Where a piece of text whose marks are `after` at its end leaves the stack. */
  predicate Leaves(r: Shape, flow: Flow, slots: nat, outer: Marks, after: Marks, looping: bool)
    requires |outer| <= |after|
  {
    match flow
    case Finished => r.height == slots + |after| && Within(r, slots, Bound(outer, after))
    case Broke => looping && r.height == slots + |outer| && Within(r, slots, outer)
    case Continued => looping && r.height == slots + |outer| && Within(r, slots, outer)
    case Left => r.height == slots + 1 && Within(r, slots, [])
    case Cut => true
  }

  predicate Goes(m: Shape, p: Path, slots: nat, outer: Marks, after: Marks, looping: bool)
    requires |outer| <= |after|
  {
    var r := Replay(m, p.did);
    && r.Some? && Calm(m, r.value, slots, p.did)
    && (p.flow == Cut ==> p.rest == []) && Leaves(r.value, p.flow, slots, outer, after, looping)
  }

  lemma FirstGoes(m: Shape, did: seq<Did>, q: Path, slots: nat, outer: Marks, after: Marks, looping: bool)
    requires Replay(m, did).Some? && Calm(m, Replay(m, did).value, slots, did) && |outer| <= |after|
    requires Goes(Replay(m, did).value, q, slots, outer, after, looping)
    ensures Goes(m, First(did, q), slots, outer, after, looping)
  {
    ReplayBoth(m, did, q.did);
  }

  /** The end of a scope, `break` and `continue`: each variable is discarded as its mark says at this place. */
  lemma {:induction false} DiscardSafe(m: Shape, marks: Marks, kept: nat, slots: nat, bound: Marks)
    requires 0 < kept <= |marks| == |bound| && m.height == slots + |marks| && Within(m, slots, bound)
    requires forall i :: kept <= i < |marks| ==> bound[i] == marks[i]
    ensures var r := Replay(m, Discards(marks, kept));
            r.Some? && Calm(m, r.value, slots, []) && r.value.height == slots + kept && Within(r.value, slots, bound[..kept])
    decreases |marks|
  {
    var n := |marks|;
    if n > kept {
      var d := if marks[n - 1] then Closed else VariablePopped;
      ReplayOne(m, d);
      assert Possible(m, d) && Within(Next(m, d), slots, bound[..n - 1]);
      DiscardSafe(Next(m, d), marks[..n - 1], kept, slots, bound[..n - 1]);
      assert bound[..n - 1][..kept] == bound[..kept];
      ReplayBoth(m, [d], Discards(marks[..n - 1], kept));
    } else {
      assert bound[..kept] == bound;
    }
  }

  /** Every path through the conditions, loops and calls of a statement is one with some `bits`. */
  lemma {:induction false} StmtSafe(fns: seq<Function>, s: Stmt, marks: Marks, outer: Marks, looping: bool, slots: nat,
      bits: seq<bool>, m: Shape)
    requires FunctionsFit(fns) && Fits(s, |marks|, fns, looping)
    requires 0 < |outer| <= |marks| && m.height == slots + |marks| && Within(m, slots, Bound(outer, marks))
    requires Allowed(outer, After(marks, s))
    ensures Goes(m, StmtPath(fns, s, marks, |outer|, slots, bits), slots, outer, After(marks, s), looping)
    decreases |bits|, s, 3
  {
    hide Replay, Within, Calm, FunctionsFit, Allowed, Bound, Goes;
    match s
    case Evaluate(e) =>
      ValueSafe(fns, e, marks, outer, slots, bits, m);
      var p := ExprPath(fns, e, slots, m.height, bits);
      TestedGoes(m, p, slots, outer, After(marks, s), looping);
    case Block(_) => BlockSafe(fns, s, marks, outer, looping, slots, bits, m);
    case If(_, _, _) => IfSafe(fns, s, marks, outer, looping, slots, bits, m);
    case Loop(_, _, _) => LoopSafe(fns, s, marks, outer, looping, slots, bits, m);
    case Break => LeaveSafe(m, marks, outer, slots, Path(Broke, bits, Discards(marks, |outer|)), looping);
    case Continue => LeaveSafe(m, marks, outer, slots, Path(Continued, bits, Discards(marks, |outer|)), looping);
    case Return(e) =>
      ValueSafe(fns, e, marks, outer, slots, bits, m);
      ReturnSafe(m, ExprPath(fns, e, slots, m.height, bits), marks, outer, slots, After(marks, s), looping);
  }

  lemma BoundOuter(outer: Marks, marks: Marks)
    requires |outer| <= |marks|
    ensures Bound(outer, marks)[..|outer|] == outer && forall i :: |outer| <= i < |marks| ==> Bound(outer, marks)[i] == marks[i]
  {
  }

  lemma LeaveSafe(m: Shape, marks: Marks, outer: Marks, slots: nat, p: Path, looping: bool)
    requires 0 < |outer| <= |marks| && m.height == slots + |marks| && Within(m, slots, Bound(outer, marks))
    requires p.did == Discards(marks, |outer|) && (p.flow == Broke || p.flow == Continued) && looping
    ensures Goes(m, p, slots, outer, marks, looping)
  {
    hide Replay, Within, Calm, Bound, Discards;
    BoundOuter(outer, marks);
    DiscardSafe(m, marks, |outer|, slots, Bound(outer, marks));
    CalmMore(m, Replay(m, p.did).value, slots, p.did);
  }

  lemma MarkedBound(outer: Marks, marks: Marks, captured: seq<nat>)
    requires |outer| <= |marks| && Allowed(outer, Marked(marks, captured)) && Declared(captured, |marks|)
    ensures Covers(Bound(outer, Marked(marks, captured)), captured)
    ensures Implies(Bound(outer, marks), Bound(outer, Marked(marks, captured)))
  {
    var after := Marked(marks, captured);
    forall i | 0 <= i < |captured|
      ensures Bound(outer, after)[captured[i]]
    {
      assert captured[i] in captured && after[captured[i]];
      if captured[i] < |outer| { assert after[..|outer|][captured[i]]; }
    }
  }

  /** An expression that is a statement, a condition or a result. */
  lemma {:induction false} ValueSafe(fns: seq<Function>, e: Expr, marks: Marks, outer: Marks, slots: nat,
      bits: seq<bool>, m: Shape)
    requires FunctionsFit(fns) && FitExpr(e, |marks|, fns)
    requires 0 < |outer| <= |marks| && m.height == slots + |marks| && Within(m, slots, Bound(outer, marks))
    requires Allowed(outer, Marked(marks, Captures(e)))
    ensures Yields(m, ExprPath(fns, e, slots, m.height, bits), slots, Bound(outer, Marked(marks, Captures(e))), m.height + 1)
    decreases |bits|, e, 2
  {
    hide Replay, Within, Calm, FunctionsFit, Allowed, Bound, Yields, FitExpr, ExprPath, Captures;
    CapturesDeclared(e, |marks|, fns);
    MarkedBound(outer, marks, Captures(e));
    var bound := Bound(outer, Marked(marks, Captures(e)));
    WithinMore(m, slots, Bound(outer, marks), bound);
    ExprSafe(fns, e, slots, bound, bits, m);
  }

  lemma TestedGoes(m: Shape, p: Path, slots: nat, outer: Marks, after: Marks, looping: bool)
    requires |outer| <= |after| && m.height == slots + |after| && (p.flow == Finished || p.flow == Cut)
    requires Yields(m, p, slots, Bound(outer, after), m.height + 1)
    ensures p.flow == Finished ==> Goes(m, Then(p, [TempPopped]), slots, outer, after, looping)
    ensures p.flow == Cut ==> Goes(m, p, slots, outer, after, looping)
  {
    hide Replay, Within, Calm, Bound;
    if p.flow == Finished { Popped(m, p, slots, Bound(outer, after)); }
  }

  lemma ReturnSafe(m: Shape, p: Path, marks: Marks, outer: Marks, slots: nat, after: Marks, looping: bool)
    requires |outer| <= |after| && (p.flow == Finished || p.flow == Cut)
    requires Yields(m, p, slots, Bound(outer, after), m.height + 1) && slots <= m.height
    ensures p.flow == Finished ==> Goes(m, Then(p.(flow := Left), [Returned(slots)]), slots, outer, after, looping)
    ensures p.flow == Cut ==> Goes(m, p, slots, outer, after, looping)
  {
    hide Replay;
    if p.flow == Finished {
      ReplayBoth(m, p.did, [Returned(slots)]);
      ReplayOne(Replay(m, p.did).value, Returned(slots));
    }
  }

  lemma {:induction false} BlockSafe(fns: seq<Function>, s: Stmt, marks: Marks, outer: Marks, looping: bool, slots: nat,
      bits: seq<bool>, m: Shape)
    requires FunctionsFit(fns) && s.Block? && Fits(s, |marks|, fns, looping)
    requires 0 < |outer| <= |marks| && m.height == slots + |marks| && Within(m, slots, Bound(outer, marks))
    requires Allowed(outer, After(marks, s))
    ensures Goes(m, StmtPath(fns, s, marks, |outer|, slots, bits), slots, outer, After(marks, s), looping)
    decreases |bits|, s, 2
  {
    hide Replay, Within, Calm, FunctionsFit, ItemsPath, FitAll, AfterAll;
    var end := AfterAll(marks, s.items);
    assert end[..|marks|][..|outer|] == end[..|outer|];
    ItemsSafe(fns, s.items, marks, outer, looping, slots, bits, m);
    var p := ItemsPath(fns, s.items, marks, |outer|, slots, bits);
    if p.flow == Finished {
      var r := Replay(m, p.did).value;
      DiscardSafe(r, end, |marks|, slots, Bound(outer, end));
      assert Bound(outer, end)[..|marks|] == Bound(outer, end[..|marks|]);
      ReplayBoth(m, p.did, Discards(end, |marks|));
      CalmBoth(m, r, Replay(r, Discards(end, |marks|)).value, slots, p.did, Discards(end, |marks|));
    }
  }

  lemma CalmMore(m: Shape, r: Shape, slots: nat, did: seq<Did>)
    requires Calm(m, r, slots, [])
    ensures Calm(m, r, slots, did)
  {
  }

  lemma CalmBoth(m: Shape, r: Shape, q: Shape, slots: nat, a: seq<Did>, b: seq<Did>)
    requires Calm(m, r, slots, a) && Calm(r, q, slots, [])
    ensures Calm(m, q, slots, a + b)
  {
  }

  lemma {:induction false} ItemsSafe(fns: seq<Function>, items: Items, marks: Marks, outer: Marks, looping: bool,
      slots: nat,
      bits: seq<bool>, m: Shape)
    requires FunctionsFit(fns) && FitAll(items, |marks|, fns, looping)
    requires 0 < |outer| <= |marks| && m.height == slots + |marks| && Within(m, slots, Bound(outer, marks))
    requires Allowed(outer, AfterAll(marks, items))
    ensures Goes(m, ItemsPath(fns, items, marks, |outer|, slots, bits), slots, outer, AfterAll(marks, items), looping)
    decreases |bits|, items, 3
  {
    hide Within, Calm, FunctionsFit, Allowed, Bound, FitItem;
    match items
    case NoItems => CalmSame(m, slots);
    case MoreItems(head, tail) =>
      hide Replay;
      var more := AfterItem(marks, head);
      AllImplies(more, tail);
      AllowedEarlier(outer, more, AfterAll(more, tail));
      ItemSafe(fns, head, marks, outer, looping, slots, bits, m);
      var p := ItemPath(fns, head, marks, |outer|, slots, bits);
      if p.flow == Finished {
        var r := Replay(m, p.did).value;
        ItemsSafe(fns, tail, more, outer, looping, slots, p.rest, r);
        FirstGoes(m, p.did, ItemsPath(fns, tail, more, |outer|, slots, p.rest), slots, outer, AfterAll(more, tail), looping);
      }
  }

  lemma {:induction false} ItemSafe(fns: seq<Function>, item: Item, marks: Marks, outer: Marks, looping: bool, slots: nat,
      bits: seq<bool>, m: Shape)
    requires FunctionsFit(fns) && FitItem(item, |marks|, fns, looping)
    requires 0 < |outer| <= |marks| && m.height == slots + |marks| && Within(m, slots, Bound(outer, marks))
    requires Allowed(outer, AfterItem(marks, item))
    ensures Goes(m, ItemPath(fns, item, marks, |outer|, slots, bits), slots, outer, AfterItem(marks, item), looping)
    decreases |bits|, item, 3
  {
    hide Replay, Within, Calm, FunctionsFit, Allowed, Bound, ExprPath, StmtPath, Fits, FitExpr;
    match item
    case Declare(init) =>
      var bound := Bound(outer, AfterItem(marks, item));
      CapturesDeclared(init, |marks| + 1, fns);
      MarkedBound(outer, marks + [false], Captures(init));
      DeclaredBound(outer, marks);
      WithinMore(m, slots, Bound(outer, marks), Bound(outer, marks + [false]));
      WithinMore(m, slots, Bound(outer, marks + [false]), bound);
      ExprSafe(fns, init, slots, bound, bits, m);
    case Perform(s) => StmtSafe(fns, s, marks, outer, looping, slots, bits, m);
  }

  lemma DeclaredBound(outer: Marks, marks: Marks)
    requires |outer| <= |marks|
    ensures Implies(Bound(outer, marks), Bound(outer, marks + [false]))
  {
  }

  lemma {:induction false} IfSafe(fns: seq<Function>, s: Stmt, marks: Marks, outer: Marks, looping: bool, slots: nat,
      bits: seq<bool>, m: Shape)
    requires FunctionsFit(fns) && s.If? && Fits(s, |marks|, fns, looping)
    requires 0 < |outer| <= |marks| && m.height == slots + |marks| && Within(m, slots, Bound(outer, marks))
    requires Allowed(outer, After(marks, s))
    ensures Goes(m, StmtPath(fns, s, marks, |outer|, slots, bits), slots, outer, After(marks, s), looping)
    decreases |bits|, s, 2
  {
    hide Replay, Within, Calm, FunctionsFit, Allowed, Bound, Implies, FitExpr;
    var here := Marked(marks, Captures(s.cond));
    var middle, after := After(here, s.yes), After(marks, s);
    AfterImplies(here, s.yes);
    AfterImplies(middle, s.no);
    AllowedEarlier(outer, middle, after);
    AllowedEarlier(outer, here, middle);
    ValueSafe(fns, s.cond, marks, outer, slots, bits, m);
    var p := ExprPath(fns, s.cond, slots, m.height, bits);
    if p.flow == Finished && p.rest != [] {
      Popped(m, p, slots, Bound(outer, here));
      BranchSafe(fns, s, marks, outer, looping, slots, p.rest, Replay(m, p.did + [TempPopped]).value);
      var q := if p.rest[0] then StmtPath(fns, s.yes, here, |outer|, slots, p.rest[1..])
               else StmtPath(fns, s.no, middle, |outer|, slots, p.rest[1..]);
      FirstGoes(m, p.did + [TempPopped], q, slots, outer, after, looping);
    }
  }

  /** The one way or the other, after the condition. */
  lemma {:induction false} BranchSafe(fns: seq<Function>, s: Stmt, marks: Marks, outer: Marks, looping: bool, slots: nat,
      bits: seq<bool>, m: Shape)
    requires FunctionsFit(fns) && s.If? && Fits(s, |marks|, fns, looping) && bits != []
    requires 0 < |outer| <= |marks| && m.height == slots + |marks|
    requires Within(m, slots, Bound(outer, Marked(marks, Captures(s.cond)))) && Allowed(outer, After(marks, s))
    ensures var here := Marked(marks, Captures(s.cond));
            var q := if bits[0] then StmtPath(fns, s.yes, here, |outer|, slots, bits[1..])
                     else StmtPath(fns, s.no, After(here, s.yes), |outer|, slots, bits[1..]);
            Goes(m, q, slots, outer, After(marks, s), looping)
    decreases |bits|, s, 1
  {
    hide Replay, Within, Calm, FunctionsFit, Allowed, Bound, Implies, FitExpr, StmtPath;
    var here := Marked(marks, Captures(s.cond));
    var middle, after := After(here, s.yes), After(marks, s);
    AfterImplies(here, s.yes);
    AfterImplies(middle, s.no);
    AllowedEarlier(outer, middle, after);
    AllowedEarlier(outer, here, middle);
    if bits[0] {
      StmtSafe(fns, s.yes, here, outer, looping, slots, bits[1..], m);
      GoesMore(m, StmtPath(fns, s.yes, here, |outer|, slots, bits[1..]), slots, outer, middle, after, looping);
    } else {
      WithinMore(m, slots, Bound(outer, here), Bound(outer, middle));
      StmtSafe(fns, s.no, middle, outer, looping, slots, bits[1..], m);
    }
  }

  lemma GoesMore(m: Shape, p: Path, slots: nat, outer: Marks, after: Marks, more: Marks, looping: bool)
    requires |outer| <= |after| == |more| && Goes(m, p, slots, outer, after, looping)
    requires Implies(Bound(outer, after), Bound(outer, more))
    ensures Goes(m, p, slots, outer, more, looping)
  {
    hide Replay, Calm, Within, Implies;
    if p.flow == Finished { WithinMore(Replay(m, p.did).value, slots, Bound(outer, after), Bound(outer, more)); }
  }

  /** `all` allows everything that the loop captures. */
  predicate KnownIn(s: Stmt, marks: Marks, all: Marks)
    requires s.Loop? && |marks| == |all|
  {
    && Marked(all, Captures(s.test)) == all && Marked(all, Captures(s.step)) == all
    && Bound(all, Inside(marks, s)) == all
    && Allowed(all, After(Inside(marks, s), s.body)) && Bound(all, After(Inside(marks, s), s.body)) == all
  }

  lemma LoopMarks(outer: Marks, marks: Marks, s: Stmt)
    requires s.Loop? && |outer| <= |marks| && Allowed(outer, After(marks, s))
    ensures var all := Bound(outer, After(marks, s)); Implies(Bound(outer, marks), all) && KnownIn(s, marks, all)
  {
    var inside, after := Inside(marks, s), After(marks, s);
    var all := Bound(outer, after);
    AfterImplies(inside, s.body);
    AfterImplies(marks, s);
    AllowedEarlier(outer, marks, after);
    forall i | 0 <= i < |marks| && after[i]
      ensures all[i]
    {
      if i < |outer| { assert after[..|outer|][i]; }
    }
    assert forall i :: 0 <= i < |marks| && (i in Captures(s.test) || i in Captures(s.step)) ==> inside[i] && after[i];
    assert after == after[..|all|];
  }

  /** Between two rounds: the second time round, what the first has captured is still open. */
  predicate Rounds(m: Shape, p: Path, all: Marks, slots: nat) {
    var r := Replay(m, p.did);
    && r.Some? && Calm(m, r.value, slots, p.did) && p.flow != Broke
    && (p.flow == Cut ==> p.rest == [])
    && (p.flow == Continued || p.flow == Finished ==> r.value.height == slots + |all| && Within(r.value, slots, all))
    && (p.flow == Left ==> r.value.height == slots + 1 && Within(r.value, slots, []))
  }

  lemma FirstRounds(m: Shape, did: seq<Did>, q: Path, all: Marks, slots: nat)
    requires Replay(m, did).Some? && Calm(m, Replay(m, did).value, slots, did)
    requires Rounds(Replay(m, did).value, q, all, slots)
    ensures Rounds(m, First(did, q), all, slots)
  {
    ReplayBoth(m, did, q.did);
  }

  lemma {:induction false} LoopSafe(fns: seq<Function>, s: Stmt, marks: Marks, outer: Marks, looping: bool, slots: nat,
      bits: seq<bool>, m: Shape)
    requires FunctionsFit(fns) && s.Loop? && Fits(s, |marks|, fns, looping)
    requires 0 < |outer| <= |marks| && m.height == slots + |marks| && Within(m, slots, Bound(outer, marks))
    requires Allowed(outer, After(marks, s))
    ensures Goes(m, StmtPath(fns, s, marks, |outer|, slots, bits), slots, outer, After(marks, s), looping)
    decreases |bits|, s, 2
  {
    hide Replay, Within, Calm, FunctionsFit, Allowed, Bound, Implies, After, KnownIn, LoopPath;
    var all := Bound(outer, After(marks, s));
    LoopMarks(outer, marks, s);
    WithinMore(m, slots, Bound(outer, marks), all);
    RoundsSafe(fns, s, marks, all, slots, bits, m);
  }

  lemma {:induction false} RoundsSafe(fns: seq<Function>, s: Stmt, marks: Marks, all: Marks, slots: nat,
      bits: seq<bool>, m: Shape)
    requires FunctionsFit(fns) && s.Loop? && Fits(s, |marks|, fns, true)
    requires m.height == slots + |marks| && |all| == |marks| > 0 && Within(m, slots, all) && KnownIn(s, marks, all)
    ensures Rounds(m, LoopPath(fns, s, marks, slots, bits), all, slots)
    ensures LoopPath(fns, s, marks, slots, bits).flow != Continued
    decreases |bits|, s, 1
  {
    hide Replay, Within, Calm, FunctionsFit, KnownIn, Fits, RoundPath;
    RoundSafe(fns, s, marks, all, slots, bits, m);
    var p := RoundPath(fns, s, marks, slots, bits);
    if p.flow == Continued {
      RoundsSafe(fns, s, marks, all, slots, p.rest, Replay(m, p.did).value);
      FirstRounds(m, p.did, LoopPath(fns, s, marks, slots, p.rest), all, slots);
    }
  }

  /** An expression none of whose captures is news. */
  lemma {:induction false} KnownSafe(fns: seq<Function>, e: Expr, slots: nat, all: Marks, bits: seq<bool>, m: Shape)
    requires FunctionsFit(fns) && FitExpr(e, |all|, fns) && Marked(all, Captures(e)) == all
    requires m.height == slots + |all| && all != [] && Within(m, slots, all)
    ensures var p := ExprPath(fns, e, slots, m.height, bits);
            Yields(m, p, slots, all, m.height + 1)
            && (p.flow == Finished ==> Yields(m, Then(p, [TempPopped]), slots, all, m.height))
    decreases |bits|, e, 3
  {
    hide Replay, Within, Calm, FunctionsFit, Marked, FitExpr, ExprPath;
    AllKnown(all, Marked(all, Captures(e)));
    ValueSafe(fns, e, all, all, slots, bits, m);
    var p := ExprPath(fns, e, slots, m.height, bits);
    if p.flow == Finished { Popped(m, p, slots, all); }
  }

  lemma AllKnown(all: Marks, marked: Marks)
    requires marked == all
    ensures Bound(all, marked) == all && Allowed(all, marked)
  {
    assert all[..|all|] == all;
  }

  /** The test, and if it holds the body and the step. */
  lemma {:induction false} RoundSafe(fns: seq<Function>, s: Stmt, marks: Marks, all: Marks, slots: nat,
      bits: seq<bool>, m: Shape)
    requires FunctionsFit(fns) && s.Loop? && Fits(s, |marks|, fns, true)
    requires m.height == slots + |marks| && |all| == |marks| > 0 && Within(m, slots, all) && KnownIn(s, marks, all)
    ensures Rounds(m, RoundPath(fns, s, marks, slots, bits), all, slots)
    decreases |bits|, s, 0
  {
    hide Replay, Within, Calm, FunctionsFit, Allowed, Bound, Marked, Inside, After, ExprPath, StmtPath;
    KnownSafe(fns, s.test, slots, all, bits, m);
    var p := ExprPath(fns, s.test, slots, m.height, bits);
    if p.flow == Finished && p.rest != [] && p.rest[0] {
      var did := p.did + [TempPopped];
      var r := Replay(m, did).value;
      BodySafe(fns, s, marks, all, slots, p.rest[1..], r);
      var q := First(did, StmtPath(fns, s.body, Inside(marks, s), |marks|, slots, p.rest[1..]));
      FirstGoes(m, did, StmtPath(fns, s.body, Inside(marks, s), |marks|, slots, p.rest[1..]), slots, all, all, true);
      AllKnown(all, all);
      if q.flow == Finished || q.flow == Continued {
        StepSafe(fns, s.step, q, all, slots, m);
      }
    }
  }

  lemma {:induction false} BodySafe(fns: seq<Function>, s: Stmt, marks: Marks, all: Marks, slots: nat,
      bits: seq<bool>, m: Shape)
    requires FunctionsFit(fns) && s.Loop? && Fits(s, |marks|, fns, true)
    requires m.height == slots + |marks| && |all| == |marks| > 0 && Within(m, slots, all) && KnownIn(s, marks, all)
    ensures Goes(m, StmtPath(fns, s.body, Inside(marks, s), |marks|, slots, bits), slots, all, all, true)
    decreases |bits|, s.body, 4
  {
    hide Replay, Within, Calm, FunctionsFit, Allowed, Bound, Marked, Inside, After, StmtPath;
    var inside := Inside(marks, s);
    StmtSafe(fns, s.body, inside, all, true, slots, bits, m);
    AllKnown(all, all);
    GoesMore(m, StmtPath(fns, s.body, inside, |all|, slots, bits), slots, all, After(inside, s.body), all, true);
  }

  /** The step, unless the body was left. */
  lemma {:induction false} StepSafe(fns: seq<Function>, e: Expr, q: Path, all: Marks, slots: nat, m: Shape)
    requires FunctionsFit(fns) && FitExpr(e, |all|, fns) && Marked(all, Captures(e)) == all
    requires all != [] && Goes(m, q, slots, all, all, true) && (q.flow == Finished || q.flow == Continued)
    ensures var p := First(q.did, ExprPath(fns, e, slots, slots + |all|, q.rest));
            if p.flow == Finished then Rounds(m, Then(p.(flow := Continued), [TempPopped]), all, slots)
            else Rounds(m, p, all, slots)
    decreases |q.rest|, e, 4
  {
    hide Replay, Within, Calm, FunctionsFit, Marked, FitExpr, ExprPath, Bound;
    AllKnown(all, all);
    var r := Replay(m, q.did).value;
    KnownSafe(fns, e, slots, all, q.rest, r);
    var p := ExprPath(fns, e, slots, slots + |all|, q.rest);
    if p.flow == Finished {
      FirstYields(m, q.did, Then(p, [TempPopped]), slots, all, slots + |all|);
      assert q.did + (p.did + [TempPopped]) == q.did + p.did + [TempPopped];
    } else {
      FirstYields(m, q.did, p, slots, all, slots + |all| + 1);
    }
  }

  // ---- programs, and the machine ----

  /** Function number zero and its arguments are pushed, and it is called. */
  function ProgramPath(fns: seq<Function>, bits: seq<bool>): Path
    requires fns != []
  {
    First(seq(1 + fns[0].arity, i => Pushed), CallPath(fns, 0, 0, bits))
  }

  lemma {:induction false} PushedSafe(n: nat)
    ensures Replay(START, seq(n, i => Pushed)) == Some(START.(height := n))
  {
    if n > 0 {
      PushedSafe(n - 1);
      assert seq(n, i => Pushed)[..n - 1] == seq(n - 1, i => Pushed);
    }
  }

  /** However the conditions of a program turn out, no variable is ever discarded plainly while a closure refers to its
      slot. A program that comes to its end leaves one value, and nothing open; it is cut only when no outcomes of
      conditions are left. */
  lemma ProgramSafe(fns: seq<Function>, bits: seq<bool>)
    requires FunctionsFit(fns) && fns != []
    ensures var p := ProgramPath(fns, bits);
            var r := Replay(START, p.did);
            && r.Some? && (p.flow == Finished || (p.flow == Cut && p.rest == []))
            && (p.flow == Finished ==> r.value.height == 1 && r.value.open == {})
  {
    hide Replay, CallPath;
    var pushed, m := seq(1 + fns[0].arity, i => Pushed), START.(height := 1 + fns[0].arity);
    PushedSafe(1 + fns[0].arity);
    CallSafe(fns, 0, 0, bits, m);
    ReplayBoth(START, pushed, CallPath(fns, 0, 0, bits).did);
    var r := Replay(m, CallPath(fns, 0, 0, bits).did);
    if r.value.open != {} {
      var s :| s in r.value.open;
    }
  }

  /** The machine has this shape. */
  ghost predicate Matches(vm: Vm, m: Shape)
    reads vm`stack, vm`all, vm.all`location
  {
    && |vm.stack| == m.height
    && (forall u :: u in vm.all && u.location >= 0 ==> u.location in m.open)
    && (forall s :: s in m.open ==> IsOpen(vm, s))
  }

  ghost predicate IsOpen(vm: Vm, slot: nat)
    reads vm`all, vm.all`location
  {
    exists u :: u in vm.all && u.location == slot
  }

  /** One thing is done. Whatever is taken off the stack, closures keep the values they see; and from the slot of a variable
      that is popped plainly they see none. Slots become other variables only from where they are closed. */
  method Execute(vm: Vm, d: Did, ghost m: Shape)
    requires vm.Valid() && Matches(vm, m) && Possible(m, d)
    modifies vm, vm.all
    ensures vm.Valid() && Matches(vm, Next(m, d)) && old(vm.all) <= vm.all && fresh(vm.all - old(vm.all))
    ensures !d.Pushed? ==> forall u :: u in old(vm.all) ==> vm.Read(u) == old(vm.Read(u))
    ensures d.VariablePopped? ==> forall u :: u in vm.all ==> u.location != |vm.stack|
    ensures match d
            case Closed => vm.cells == old(vm.cells)[..m.height - 1]
            case Returned(slots) => vm.cells == old(vm.cells)[..slots] + [old(vm.used)]
            case _ => old(vm.cells) <= vm.cells
  {
    hide Vm.Valid;
    match d
    case Pushed => vm.Push(Values.Nil);
    case CapturedSlot(slot) => var _ := vm.CaptureUpvalue(slot);
    case TempPopped => vm.Pop();
    case VariablePopped => vm.Pop();
    case Closed => vm.CloseUpvalue();
    case Returned(slots) => vm.Return(slots);
  }

  lemma TopOpen(vm: Vm)
    requires vm.Valid()
    ensures vm.openUpvalues != null ==> vm.openUpvalues in vm.all && 0 <= vm.openUpvalues.location
  {
  }
}
