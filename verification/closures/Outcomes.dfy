/** What small pieces of text come to, written out: which way is taken, what is called, how often a loop runs. */
module Outcomes {
  import opened Discarding
  import Emission

  /** The closure captures one slot. */
  function Capturing(i: nat): Expr {
    Closure([i])
  }

  function Plain(e: Expr): Stmt {
    Evaluate(e)
  }

  lemma CapturingDoes(fns: seq<Function>, i: nat, slots: nat, top: nat, bits: seq<bool>)
    ensures ExprPath(fns, Capturing(i), slots, top, bits) == Path(Finished, bits, [Pushed, CapturedSlot(slots + i)])
    ensures Captures(Capturing(i)) == [i]
  {
    assert CapturedAll([i], slots) == [CapturedSlot(slots + i)];
  }

  lemma PlainDoes(fns: seq<Function>, i: nat, marks: Marks, base: nat, slots: nat, bits: seq<bool>)
    ensures StmtPath(fns, Plain(Capturing(i)), marks, base, slots, bits)
            == Path(Finished, bits, [Pushed, CapturedSlot(slots + i), TempPopped])
  {
    hide ExprPath;
    CapturingDoes(fns, i, slots, slots + |marks|, bits);
  }

  lemma ConstantDoes(fns: seq<Function>, slots: nat, top: nat, bits: seq<bool>)
    ensures ExprPath(fns, Constant, slots, top, bits) == Path(Finished, bits, [Pushed]) && Captures(Constant) == []
  {
  }

  /** The first way if the condition holds, and else the second. */
  lemma IfTakes(fns: seq<Function>, s: Stmt, i: nat, j: nat, marks: Marks, base: nat, slots: nat, holds: bool, bits: seq<bool>)
    requires s == If(Constant, Plain(Capturing(i)), Plain(Capturing(j)))
    ensures StmtPath(fns, s, marks, base, slots, [holds] + bits)
            == Path(Finished, bits, [Pushed, TempPopped, Pushed, CapturedSlot(slots + if holds then i else j), TempPopped])
  {
    hide ExprPath, After, Captures;
    ConstantDoes(fns, slots, slots + |marks|, [holds] + bits);
    var m := Marked(marks, []);
    assert ([holds] + bits)[1..] == bits;
    PlainDoes(fns, i, m, base, slots, bits);
    PlainDoes(fns, j, After(m, s.yes), base, slots, bits);
  }

  /** `and` goes on to its second operand if the first holds, `or` if it does not. */
  lemma EitherTakes(fns: seq<Function>, e: Expr, isOr: bool, i: nat, slots: nat, top: nat, holds: bool, bits: seq<bool>)
    requires e == Either(isOr, Constant, Capturing(i))
    ensures ExprPath(fns, e, slots, top, [holds] + bits)
            == Path(Finished, bits, if holds == isOr then [Pushed] else [Pushed, TempPopped, Pushed, CapturedSlot(slots + i)])
  {
    ConstantDoes(fns, slots, top, [holds] + bits);
    assert ([holds] + bits)[1..] == bits;
    CapturingDoes(fns, i, slots, top, bits);
  }

  /** Operands and arguments are evaluated from left to right. */
  lemma BothTake(fns: seq<Function>, e: Expr, es: Exprs, i: nat, j: nat, slots: nat, top: nat, bits: seq<bool>)
    requires e == Binary(Capturing(i), Capturing(j)) && es == MoreExprs(Capturing(i), MoreExprs(Capturing(j), NoExprs))
    ensures var both := [Pushed, CapturedSlot(slots + i), Pushed, CapturedSlot(slots + j)];
            && ExprPath(fns, e, slots, top, bits) == Path(Finished, bits, both + [TempPopped, TempPopped, Pushed])
            && ExprsPath(fns, es, slots, top, bits) == Path(Finished, bits, both)
  {
    hide ExprPath, ExprsPath;
    Emission.BinaryIs(fns, e, 0, slots, top, bits);
    CapturingDoes(fns, i, slots, top, bits);
    CapturingDoes(fns, j, slots, top + 1, bits);
    Emission.ExprsAre(fns, es, 0, slots, top, bits);
    Emission.ExprsAre(fns, es.tail, 0, slots, top + 1, bits);
    NoneTake(fns, slots, top + 2, bits);
  }

  lemma NoneTake(fns: seq<Function>, slots: nat, top: nat, bits: seq<bool>)
    ensures ExprsPath(fns, NoExprs, slots, top, bits) == Path(Finished, bits, [])
  {
  }

  /** A result is evaluated, and nothing else of the function runs. */
  lemma ReturnTakes(fns: seq<Function>, items: Items, i: nat, marks: Marks, base: nat, slots: nat, bits: seq<bool>)
    requires items.MoreItems? && items.head == Perform(Return(Capturing(i)))
    ensures ItemsPath(fns, items, marks, base, slots, bits)
            == Path(Left, bits, [Pushed, CapturedSlot(slots + i), Returned(slots)])
  {
    hide ExprPath, ItemsPath, ItemPath;
    CapturingDoes(fns, i, slots, slots + |marks|, bits);
    Emission.ItemsAre(fns, items, marks, base, true, slots, bits);
    ReturnIs(fns, items.head, marks, base, slots, bits);
    assert [Pushed, CapturedSlot(slots + i)] + [Returned(slots)] == [Pushed, CapturedSlot(slots + i), Returned(slots)];
  }

  lemma ReturnIs(fns: seq<Function>, item: Item, marks: Marks, base: nat, slots: nat, bits: seq<bool>)
    requires item.Perform? && item.s.Return?
    ensures var p := ExprPath(fns, item.s.e, slots, slots + |marks|, bits);
            p.flow == Finished ==> ItemPath(fns, item, marks, base, slots, bits) == Then(p.(flow := Left), [Returned(slots)])
  {
    hide ExprPath;
  }

  /** What is called runs in a frame of its own, which begins at the callee. */
  lemma CallTakes(fns: seq<Function>, e: Expr, callee: nat, i: nat, slots: nat, top: nat, outcome: bool, bits: seq<bool>)
    requires e == Apply(Constant, callee, NoExprs) && callee < |fns|
    requires fns[callee] == Function(0, MoreItems(Perform(Plain(Capturing(i))), NoItems))
    ensures ExprPath(fns, e, slots, top, [outcome] + bits)
            == Path(Finished, bits, [Pushed, Pushed, CapturedSlot(top + i), TempPopped, Pushed, Returned(top)])
  {
    hide ExprPath, ItemsPath, ArgsPath, CallPath;
    var all := [outcome] + bits;
    Emission.ApplyIs(fns, e, 0, slots, top, all);
    ConstantDoes(fns, slots, top, all);
    Emission.ArgsAre(fns, callee, NoExprs, slots, top, all);
    assert all[1..] == bits;
    BodyDoes(fns, fns[callee].body, i, Unmarked(1), 1, top, bits);
    CallIs(fns, callee, top, bits);
    var did := [Pushed, CapturedSlot(top + i), TempPopped];
    assert [Pushed] + ([] + (did + [Pushed, Returned(top)]))
           == [Pushed, Pushed, CapturedSlot(top + i), TempPopped, Pushed, Returned(top)];
  }

  lemma CallIs(fns: seq<Function>, callee: nat, slots: nat, bits: seq<bool>)
    requires callee < |fns|
    ensures var p := ItemsPath(fns, fns[callee].body, Unmarked(1 + fns[callee].arity), 1, slots, bits);
            p.flow == Finished ==> CallPath(fns, callee, slots, bits) == Then(p, [Pushed, Returned(slots)])
  {
    hide ItemsPath;
  }

  lemma BodyDoes(fns: seq<Function>, items: Items, i: nat, marks: Marks, base: nat, slots: nat, bits: seq<bool>)
    requires items == MoreItems(Perform(Plain(Capturing(i))), NoItems)
    ensures ItemsPath(fns, items, marks, base, slots, bits) == Path(Finished, bits, [Pushed, CapturedSlot(slots + i), TempPopped])
    ensures AfterAll(marks, items) == Marked(marks, [i])
  {
    hide StmtPath;
    PlainDoes(fns, i, marks, base, slots, bits);
    CapturingDoes(fns, i, slots, slots, bits);
    assert After(marks, items.head.s) == Marked(marks, [i]);
  }

  /** At the end of its scope a variable is closed if and only if something captures it. */
  lemma BlockTakes(fns: seq<Function>, s: Stmt, i: nat, marks: Marks, base: nat, slots: nat, bits: seq<bool>)
    requires s == Block(MoreItems(Declare(Constant), MoreItems(Perform(Plain(Capturing(i))), NoItems)))
    ensures StmtPath(fns, s, marks, base, slots, bits)
            == Path(Finished, bits, [Pushed, Pushed, CapturedSlot(slots + i), TempPopped,
                                     if i == |marks| then Closed else VariablePopped])
  {
    var items, n := s.items, |marks|;
    BlockIs(fns, s, marks, base, slots, bits);
    hide ItemsPath, ExprPath, Captures, AfterAll, StmtPath, Discards, Marked;
    Emission.ItemsAre(fns, items, marks, base, true, slots, bits);
    DeclareDoes(fns, marks, base, slots, bits);
    var more := AfterItem(marks, items.head);
    BodyDoes(fns, items.tail, i, more, base, slots, bits);
    OneMarked(marks, i);
    OneDiscard(Marked(marks + [false], [i]), n);
    var did := [Pushed, CapturedSlot(slots + i), TempPopped];
    assert [Pushed] + did + [if i == n then Closed else VariablePopped]
           == [Pushed, Pushed, CapturedSlot(slots + i), TempPopped, if i == n then Closed else VariablePopped];
  }

  lemma BlockIs(fns: seq<Function>, s: Stmt, marks: Marks, base: nat, slots: nat, bits: seq<bool>)
    requires s.Block?
    ensures var p := ItemsPath(fns, s.items, marks, base, slots, bits);
            p.flow == Finished ==> StmtPath(fns, s, marks, base, slots, bits) == Then(p, Discards(AfterAll(marks, s.items), |marks|))
  {
    hide ItemsPath, AfterAll, Discards;
  }

  lemma DeclareDoes(fns: seq<Function>, marks: Marks, base: nat, slots: nat, bits: seq<bool>)
    ensures ItemPath(fns, Declare(Constant), marks, base, slots, bits) == Path(Finished, bits, [Pushed])
    ensures AfterItem(marks, Declare(Constant)) == marks + [false]
  {
    assert Marked(marks + [false], []) == marks + [false];
  }

  lemma OneMarked(marks: Marks, i: nat)
    ensures var m := Marked(marks + [false], [i]); |m| == |marks| + 1 && m[|marks|] == (i == |marks|)
  {
  }

  lemma OneDiscard(marks: Marks, kept: nat)
    requires |marks| == kept + 1
    ensures Discards(marks, kept) == [if marks[kept] then Closed else VariablePopped]
  {
    assert Discards(marks[..kept], kept) == [];
  }

  /** So many rounds, one like the other. */
  function Rounds(n: nat, round: seq<Did>): seq<Did> {
    if n == 0 then [] else round + Rounds(n - 1, round)
  }

  function Outcomes(n: nat, bits: seq<bool>): seq<bool> {
    if n == 0 then [false] + bits else [true] + Outcomes(n - 1, bits)
  }

  lemma RoundTakes(fns: seq<Function>, s: Stmt, i: nat, j: nat, marks: Marks, slots: nat, holds: bool, bits: seq<bool>)
    requires s == Loop(Constant, Capturing(i), Plain(Capturing(j)))
    ensures RoundPath(fns, s, marks, slots, [holds] + bits)
            == if holds then Path(Continued, bits, [Pushed, TempPopped, Pushed, CapturedSlot(slots + j), TempPopped,
                                                    Pushed, CapturedSlot(slots + i), TempPopped])
               else Path(Finished, bits, [Pushed, TempPopped])
  {
    hide RoundPath, ExprPath, StmtPath, Inside;
    Emission.RoundIs(fns, s, marks, slots, [holds] + bits);
    ConstantDoes(fns, slots, slots + |marks|, [holds] + bits);
    assert ([holds] + bits)[1..] == bits;
    PlainDoes(fns, j, Inside(marks, s), |marks|, slots, bits);
    CapturingDoes(fns, i, slots, slots + |marks|, bits);
  }

  /** As often as the test holds, the body is run, and the step after it. */
  lemma {:induction false} LoopTakes(fns: seq<Function>, s: Stmt, i: nat, j: nat, marks: Marks, slots: nat, n: nat, bits: seq<bool>)
    requires s == Loop(Constant, Capturing(i), Plain(Capturing(j)))
    ensures var round := [Pushed, TempPopped, Pushed, CapturedSlot(slots + j), TempPopped, Pushed, CapturedSlot(slots + i), TempPopped];
            LoopPath(fns, s, marks, slots, Outcomes(n, bits)) == Path(Finished, bits, Rounds(n, round) + [Pushed, TempPopped])
    decreases n
  {
    hide LoopPath, RoundPath;
    Emission.LoopIs(fns, s, marks, 0, true, slots, Outcomes(n, bits));
    if n > 0 {
      RoundTakes(fns, s, i, j, marks, slots, true, Outcomes(n - 1, bits));
      LoopTakes(fns, s, i, j, marks, slots, n - 1, bits);
    } else {
      RoundTakes(fns, s, i, j, marks, slots, false, bits);
    }
  }

  /** `break` leaves out the step and ends the loop; `continue` goes to the step and the test. */
  lemma LeavesTake(fns: seq<Function>, s: Stmt, i: nat, marks: Marks, slots: nat, bits: seq<bool>)
    requires s.Loop? && s.test == Constant && s.step == Capturing(i)
    ensures s.body == Break ==> RoundPath(fns, s, marks, slots, [true] + bits) == Path(Finished, bits, [Pushed, TempPopped])
    ensures s.body == Continue ==>
      RoundPath(fns, s, marks, slots, [true] + bits)
      == Path(Continued, bits, [Pushed, TempPopped, Pushed, CapturedSlot(slots + i), TempPopped])
  {
    hide RoundPath, ExprPath, Inside;
    Emission.RoundIs(fns, s, marks, slots, [true] + bits);
    ConstantDoes(fns, slots, slots + |marks|, [true] + bits);
    assert ([true] + bits)[1..] == bits;
    CapturingDoes(fns, i, slots, slots + |marks|, bits);
    Emission.InsideSize(marks, s);
    assert Discards(Inside(marks, s), |marks|) == [];
  }

  /** `def f() { var x; def () => x; }`: when the closure is made `x` lies in slot one, and what is left is nil. */
  lemma CaptureExample(fns: seq<Function>, body: Items)
    requires body == MoreItems(Declare(Constant), MoreItems(Perform(Plain(Capturing(1))), NoItems)) && fns == [Function(0, body)]
    ensures ProgramPath(fns, []) == Path(Finished, [], [Pushed, Pushed, Pushed, CapturedSlot(1), TempPopped, Pushed, Returned(0)])
  {
    hide ItemsPath, CallPath, ExprPath;
    CallIs(fns, 0, 0, []);
    Emission.ItemsAre(fns, body, Unmarked(1), 1, true, 0, []);
    DeclareDoes(fns, Unmarked(1), 1, 0, []);
    BodyDoes(fns, body.tail, 1, Unmarked(1) + [false], 1, 0, []);
    var did := [Pushed, CapturedSlot(1), TempPopped];
    assert seq(1, k => Pushed) + ([Pushed] + did + [Pushed, Returned(0)])
           == [Pushed, Pushed, Pushed, CapturedSlot(1), TempPopped, Pushed, Returned(0)];
  }
}
