/** Flattening closures: how the compiler turns a name used in a nested function into upvalues of that
    function and of every function between it and the declaration. */
module Resolution {
  import opened Options

  const LIMIT := 256

  /** `depth` counts the scopes around the declaration; it is -1 until the initialiser has been compiled. `constant` is what
      assignments look at and is set at the same time, to `keyword`. */
  datatype Local = Local(name: string, isUpvalue: bool, constant: bool, depth: int, keyword: bool) {
    predicate Defined() { depth >= 0 }
  }

  /** Where the creating function finds an upvalue: a local of its own, or one of its own upvalues. */
  datatype Ref = Ref(isLocal: bool, index: nat)

  /** `constants[i]` says whether upvalue `i` is of a constant; `depth` is how many scopes are open. */
  datatype Fn = Fn(locals: seq<Local>, upvalues: seq<Ref>, constants: seq<bool>, depth: nat)

  predicate Flag(f: Fn, i: nat) {
    i < |f.constants| && f.constants[i]
  }

  /** The innermost local called `name`, or -1. */
  function SlotOf(locals: seq<Local>, name: string): (i: int)
    ensures -1 <= i < |locals|
    ensures 0 <= i ==> locals[i].name == name
    ensures forall j :: i < j < |locals| ==> locals[j].name != name
  {
    if locals == [] then -1
    else if locals[|locals| - 1].name == name then |locals| - 1
    else SlotOf(locals[..|locals| - 1], name)
  }

  /** Position of `r`, or -1. */
  function Find(refs: seq<Ref>, r: Ref): (i: int)
    ensures -1 <= i < |refs|
    ensures if 0 <= i then refs[i] == r else r !in refs
  {
    if refs == [] then -1
    else if refs[0] == r then 0
    else var i := Find(refs[1..], r); if i < 0 then -1 else i + 1
  }

  datatype Outcome = Outcome(fns: seq<Fn>, index: int, failed: bool)

  /** Adds an upvalue to the innermost function unless it has it already. */
  function Add(fns: seq<Fn>, r: Ref, constant: bool): Outcome
    requires fns != []
  {
    var k := |fns| - 1;
    var i := Find(fns[k].upvalues, r);
    if 0 <= i then Outcome(fns, i, false)
    else if |fns[k].upvalues| == LIMIT then Outcome(fns, 0, true)
    else
      var f := fns[k].(upvalues := fns[k].upvalues + [r], constants := fns[k].constants + [constant]);
      Outcome(fns[k := f], |fns[k].upvalues|, false)
  }

  function Mark(f: Fn, slot: nat): Fn
    requires slot < |f.locals|
  {
    f.(locals := f.locals[slot := f.locals[slot].(isUpvalue := true)])
  }

  /** Resolving `name` in the innermost of the nested functions `fns`; index -1 if no enclosing
      function declares it. */
  function Resolve(fns: seq<Fn>, name: string): (r: Outcome)
    requires fns != []
    ensures |r.fns| == |fns| && r.index >= -1
  {
    var k := |fns| - 1;
    if k == 0 then Outcome(fns, -1, false) else
    var slot := SlotOf(fns[k - 1].locals, name);
    if 0 <= slot then Add(fns[k - 1 := Mark(fns[k - 1], slot)], Ref(true, slot), fns[k - 1].locals[slot].constant)
    else
      var outer := Resolve(fns[..k], name);
      if outer.failed then Outcome(outer.fns + [fns[k]], 0, true)
      else if outer.index == -1 then Outcome(outer.fns + [fns[k]], -1, false)
      else Add(outer.fns + [fns[k]], Ref(false, outer.index), Flag(outer.fns[k - 1], outer.index))
  }

  // ---- what upvalues stand for ----

  /** A declaration: the nesting level of the function and the slot of the local. */
  datatype Declaration = Declaration(level: nat, slot: nat)

  /** Lexical scoping: the innermost enclosing function that declares `name`, and its innermost local
      of that name. */
  function Lexical(fns: seq<Fn>, name: string): Option<Declaration> {
    if fns == [] then None
    else
      var k := |fns| - 1;
      var slot := SlotOf(fns[k].locals, name);
      if 0 <= slot then Some(Declaration(k, slot)) else Lexical(fns[..k], name)
  }

  /** References lead outwards to locals that exist and are marked as captured, and no function refers to the same thing twice. */
  predicate WellFormed(fns: seq<Fn>) {
    && (forall k :: 0 <= k < |fns| ==> |fns[k].upvalues| <= LIMIT)
    && (forall k, i :: 0 <= k < |fns| && 0 <= i < |fns[k].upvalues| ==> RefOk(fns, k, fns[k].upvalues[i]))
    && (forall k, i, j :: 0 <= k < |fns| && 0 <= i < j < |fns[k].upvalues| ==> fns[k].upvalues[i] != fns[k].upvalues[j])
  }

  predicate RefOk(fns: seq<Fn>, k: nat, r: Ref)
    requires k < |fns|
  {
    && 0 < k
    && if r.isLocal then r.index < |fns[k - 1].locals| && fns[k - 1].locals[r.index].isUpvalue
       else r.index < |fns[k - 1].upvalues|
  }

  /** The declaration upvalue `i` of the function at level `k` leads to. */
  function Meaning(fns: seq<Fn>, k: nat, i: nat): Declaration
    requires WellFormed(fns) && k < |fns| && i < |fns[k].upvalues|
    decreases k
  {
    var r := fns[k].upvalues[i];
    assert RefOk(fns, k, r);
    if r.isLocal then Declaration(k - 1, r.index) else Meaning(fns, k - 1, r.index)
  }

  /** `later` has the same functions with the same names, and every upvalue is still what it was. */
  predicate Keeps(fns: seq<Fn>, later: seq<Fn>) {
    && |fns| == |later|
    && (forall k :: 0 <= k < |fns| ==> |later[k].locals| == |fns[k].locals| && fns[k].upvalues <= later[k].upvalues)
    && (forall k :: 0 <= k < |fns| ==> fns[k].constants <= later[k].constants && later[k].depth == fns[k].depth)
    && (forall k, i :: 0 <= k < |fns| && 0 <= i < |fns[k].locals| ==>
          && later[k].locals[i].(isUpvalue := true) == fns[k].locals[i].(isUpvalue := true)
          && (fns[k].locals[i].isUpvalue ==> later[k].locals[i].isUpvalue))
  }

  /** The functions up to level `k` have at least the upvalues they had; what locals there are is left open. */
  predicate Extends(fns: seq<Fn>, later: seq<Fn>, k: nat) {
    k < |fns| && k < |later| && forall j :: 0 <= j <= k ==> fns[j].upvalues <= later[j].upvalues
  }

  // ---- results ----

  lemma ResolveStep(fns: seq<Fn>, name: string)
    requires fns != []
    ensures var k := |fns| - 1;
            Resolve(fns, name) ==
            if k == 0 then Outcome(fns, -1, false) else
            var slot := SlotOf(fns[k - 1].locals, name);
            if 0 <= slot then Add(fns[k - 1 := Mark(fns[k - 1], slot)], Ref(true, slot), fns[k - 1].locals[slot].constant)
            else
              var outer := Resolve(fns[..k], name);
              if outer.failed then Outcome(outer.fns + [fns[k]], 0, true)
              else if outer.index == -1 then Outcome(outer.fns + [fns[k]], -1, false)
              else Add(outer.fns + [fns[k]], Ref(false, outer.index), Flag(outer.fns[k - 1], outer.index))
  {
  }

  lemma LexicalStep(fns: seq<Fn>, name: string)
    requires |fns| > 1
    ensures var k := |fns| - 1;
            var slot := SlotOf(fns[k - 1].locals, name);
            Lexical(fns[..k], name) == if 0 <= slot then Some(Declaration(k - 1, slot)) else Lexical(fns[..k - 1], name)
  {
    var k := |fns| - 1;
    assert fns[..k][k - 1] == fns[k - 1] && fns[..k][..k - 1] == fns[..k - 1];
  }

  lemma {:induction false} MeaningLevel(fns: seq<Fn>, k: nat, i: nat)
    requires WellFormed(fns) && k < |fns| && i < |fns[k].upvalues|
    ensures var d := Meaning(fns, k, i);
            && d.level < k && (fns[k].upvalues[i].isLocal <==> d.level == k - 1)
            && d.slot < |fns[d.level].locals| && fns[d.level].locals[d.slot].isUpvalue
    decreases k
  {
    var r := fns[k].upvalues[i];
    assert RefOk(fns, k, r);
    if !r.isLocal { MeaningLevel(fns, k - 1, r.index); }
  }

  /** Two upvalues of one function never stand for the same variable. */
  lemma {:induction false} MeaningInjective(fns: seq<Fn>, k: nat, i: nat, j: nat)
    requires WellFormed(fns) && k < |fns| && i < |fns[k].upvalues| && j < |fns[k].upvalues|
    requires Meaning(fns, k, i) == Meaning(fns, k, j)
    ensures i == j
    decreases k
  {
    MeaningLevel(fns, k, i);
    MeaningLevel(fns, k, j);
    var r, t := fns[k].upvalues[i], fns[k].upvalues[j];
    assert RefOk(fns, k, r) && RefOk(fns, k, t);
    if !r.isLocal { MeaningInjective(fns, k - 1, r.index, t.index); }
  }

  /** What an upvalue stands for never changes, however much is declared, dropped and resolved afterwards. */
  lemma {:induction false} MeaningStable(fns: seq<Fn>, later: seq<Fn>, k: nat, i: nat)
    requires WellFormed(fns) && WellFormed(later) && Extends(fns, later, k) && i < |fns[k].upvalues|
    ensures Meaning(later, k, i) == Meaning(fns, k, i)
    decreases k
  {
    var r := fns[k].upvalues[i];
    assert later[k].upvalues[i] == r && RefOk(fns, k, r);
    if !r.isLocal { MeaningStable(fns, later, k - 1, r.index); }
  }

  lemma {:induction false} MeaningPrefix(fns: seq<Fn>, n: nat, k: nat, i: nat)
    requires WellFormed(fns) && n <= |fns| && WellFormed(fns[..n]) && k < n && i < |fns[k].upvalues|
    ensures Meaning(fns[..n], k, i) == Meaning(fns, k, i)
    decreases k
  {
    var r := fns[k].upvalues[i];
    assert RefOk(fns, k, r);
    if !r.isLocal { MeaningPrefix(fns, n, k - 1, r.index); }
  }

  lemma PrefixWellFormed(fns: seq<Fn>, n: nat)
    requires WellFormed(fns) && n <= |fns|
    ensures WellFormed(fns[..n])
  {
    forall k, i | 0 <= k < n && 0 <= i < |fns[k].upvalues|
      ensures RefOk(fns[..n], k, fns[k].upvalues[i])
    {
      assert RefOk(fns, k, fns[k].upvalues[i]);
    }
  }

  /** Putting the innermost function back behind enclosing functions that have learned more. */
  lemma AppendWellFormed(fns: seq<Fn>, outer: seq<Fn>)
    requires WellFormed(fns) && |outer| == |fns| - 1 && WellFormed(outer) && Keeps(fns[..|fns| - 1], outer)
    ensures WellFormed(outer + [fns[|fns| - 1]]) && Keeps(fns, outer + [fns[|fns| - 1]])
  {
    var k := |fns| - 1;
    var all := outer + [fns[k]];
    forall j, i | 0 <= j < |all| && 0 <= i < |all[j].upvalues|
      ensures RefOk(all, j, all[j].upvalues[i])
    {
      if j < k { assert RefOk(outer, j, outer[j].upvalues[i]); }
      else {
        assert RefOk(fns, k, fns[k].upvalues[i]);
        if k > 0 { assert fns[..k][k - 1] == fns[k - 1] && all[k - 1] == outer[k - 1]; }
      }
    }
  }

  lemma AddKeeps(fns: seq<Fn>, r: Ref, constant: bool)
    requires fns != [] && WellFormed(fns) && RefOk(fns, |fns| - 1, r)
    ensures var k := |fns| - 1;
            var o := Add(fns, r, constant);
            && (o.failed <==> |fns[k].upvalues| == LIMIT && r !in fns[k].upvalues)
            && (!o.failed ==>
                  && WellFormed(o.fns) && Keeps(fns, o.fns)
                  && 0 <= o.index < |o.fns[k].upvalues| && o.fns[k].upvalues[o.index] == r)
  {
    var o := Add(fns, r, constant);
    forall j, i | 0 <= j < |fns| && 0 <= i < |o.fns[j].upvalues| && !o.failed
      ensures RefOk(o.fns, j, o.fns[j].upvalues[i])
    {
      if j < |fns| - 1 || i < |fns[j].upvalues| { assert RefOk(fns, j, fns[j].upvalues[i]); }
    }
  }

  lemma MarkKeeps(fns: seq<Fn>, k: nat, slot: nat)
    requires WellFormed(fns) && k < |fns| && slot < |fns[k].locals|
    ensures var later := fns[k := Mark(fns[k], slot)]; WellFormed(later) && Keeps(fns, later)
  {
    var later := fns[k := Mark(fns[k], slot)];
    forall j, i | 0 <= j < |fns| && 0 <= i < |later[j].upvalues|
      ensures RefOk(later, j, later[j].upvalues[i])
    {
      assert RefOk(fns, j, fns[j].upvalues[i]);
    }
  }

  lemma KeepsTransitive(a: seq<Fn>, b: seq<Fn>, c: seq<Fn>)
    requires Keeps(a, b) && Keeps(b, c)
    ensures Keeps(a, c)
  {
  }

  lemma KeepsExtends(fns: seq<Fn>, later: seq<Fn>, k: nat)
    requires Keeps(fns, later) && k < |fns|
    ensures Extends(fns, later, k)
  {
  }

  /** The variable a name denotes in the innermost function is a local of no function exactly if it is
      not found, and otherwise the upvalue stands for the lexically innermost declaration. */
  lemma {:induction false} ResolveMeans(fns: seq<Fn>, name: string)
    requires fns != [] && WellFormed(fns)
    ensures var k := |fns| - 1;
            var o := Resolve(fns, name);
            var d := Lexical(fns[..k], name);
            !o.failed ==>
              && WellFormed(o.fns) && Keeps(fns, o.fns)
              && (o.index == -1 <==> d.None?)
              && (d.Some? ==> 0 <= o.index < |o.fns[k].upvalues| && Meaning(o.fns, k, o.index) == d.value)
    decreases |fns|
  {
    hide WellFormed, Keeps, Resolve, Lexical, Meaning;
    var k := |fns| - 1;
    ResolveStep(fns, name);
    if k > 0 {
      LexicalStep(fns, name);
      var slot := SlotOf(fns[k - 1].locals, name);
      if 0 <= slot {
        ResolveLocal(fns, name, slot);
      } else {
        PrefixWellFormed(fns, k);
        assert fns[..k][..k - 1] == fns[..k - 1];
        ResolveMeans(fns[..k], name);
        var outer := Resolve(fns[..k], name);
        var d := Lexical(fns[..k - 1], name);
        if !outer.failed { ResolveOuter(fns, name, outer, if d.Some? then d.value else Declaration(0, 0)); }
      }
    } else {
      KeepsSelf(fns);
      assert Lexical(fns[..k], name) == None by { NoFunctions(fns[..k], name); }
    }
  }

  lemma NoFunctions(fns: seq<Fn>, name: string)
    requires fns == []
    ensures Lexical(fns, name) == None
  {
  }

  lemma KeepsSelf(fns: seq<Fn>)
    ensures Keeps(fns, fns)
  {
  }

  lemma ResolveLocal(fns: seq<Fn>, name: string, slot: nat)
    requires |fns| > 1 && WellFormed(fns)
    requires var k := |fns| - 1; slot == SlotOf(fns[k - 1].locals, name)
    ensures var k := |fns| - 1;
            var o := Resolve(fns, name);
            !o.failed ==>
              && WellFormed(o.fns) && Keeps(fns, o.fns)
              && 0 <= o.index < |o.fns[k].upvalues| && Meaning(o.fns, k, o.index) == Declaration(k - 1, slot)
  {
    hide WellFormed, Keeps, Resolve;
    var k := |fns| - 1;
    ResolveStep(fns, name);
    var marked := fns[k - 1 := Mark(fns[k - 1], slot)];
    MarkKeeps(fns, k - 1, slot);
    var constant := fns[k - 1].locals[slot].constant;
    AddKeeps(marked, Ref(true, slot), constant);
    var o := Add(marked, Ref(true, slot), constant);
    if !o.failed { KeepsTransitive(fns, marked, o.fns); }
  }

  /** Upvalue `i` of the function at level `k` is there and stands for `d`. */
  predicate Stands(fns: seq<Fn>, k: nat, i: int, d: Declaration) {
    WellFormed(fns) && k < |fns| && 0 <= i < |fns[k].upvalues| && Meaning(fns, k, i) == d
  }

  /** An upvalue that refers to an upvalue of the enclosing function stands for the same variable. */
  lemma FurtherOut(joined: seq<Fn>, fns: seq<Fn>, k: nat, index: int, i: nat, d: Declaration)
    requires 0 < k < |joined| && WellFormed(joined) && WellFormed(fns) && Keeps(joined, fns)
    requires k < |fns| && Stands(joined[..k], k - 1, index, d) && i < |fns[k].upvalues| && fns[k].upvalues[i] == Ref(false, index)
    ensures Stands(fns, k, i, d)
  {
    hide WellFormed, Keeps;
    MeaningPrefix(joined, k, k - 1, index);
    KeepsExtends(joined, fns, k - 1);
    MeaningStable(joined, fns, k - 1, index);
    assert RefOk(fns, k, fns[k].upvalues[i]) by { RefsOk(fns, k, i); }
  }

  lemma RefsOk(fns: seq<Fn>, k: nat, i: nat)
    requires WellFormed(fns) && k < |fns| && i < |fns[k].upvalues|
    ensures RefOk(fns, k, fns[k].upvalues[i])
  {
  }

  lemma ResolveOuter(fns: seq<Fn>, name: string, outer: Outcome, d: Declaration)
    requires |fns| > 1 && WellFormed(fns) && SlotOf(fns[|fns| - 2].locals, name) < 0
    requires outer == Resolve(fns[..|fns| - 1], name) && !outer.failed
    requires WellFormed(outer.fns) && Keeps(fns[..|fns| - 1], outer.fns)
    requires outer.index == -1 || Stands(outer.fns, |fns| - 2, outer.index, d)
    ensures var o := Resolve(fns, name);
            !o.failed ==>
              && WellFormed(o.fns) && Keeps(fns, o.fns)
              && (o.index == -1 <==> outer.index == -1)
              && (outer.index >= 0 ==> Stands(o.fns, |fns| - 1, o.index, d))
  {
    hide WellFormed, Keeps, Resolve, Meaning;
    var k := |fns| - 1;
    ResolveStep(fns, name);
    AppendWellFormed(fns, outer.fns);
    if outer.index >= 0 {
      var joined := outer.fns + [fns[k]];
      var constant := Flag(outer.fns[k - 1], outer.index);
      AddKeeps(joined, Ref(false, outer.index), constant);
      var o := Add(joined, Ref(false, outer.index), constant);
      if !o.failed {
        KeepsTransitive(fns, joined, o.fns);
        assert joined[..k] == outer.fns;
        FurtherOut(joined, o.fns, k, outer.index, o.index, d);
      }
    }
  }

  /** The function at level `j` would need one upvalue too many to reach `d`. */
  predicate Full(fns: seq<Fn>, j: nat, d: Declaration)
    requires WellFormed(fns) && j < |fns|
  {
    d.level < j && |fns[j].upvalues| == 256 && forall i :: 0 <= i < 256 ==> Meaning(fns, j, i) != d
  }

  /** Resolution fails exactly if some function between the declaration and the use already captures
      256 other variables. */
  lemma {:induction false} ResolveFails(fns: seq<Fn>, name: string)
    requires fns != [] && WellFormed(fns)
    ensures var d := Lexical(fns[..|fns| - 1], name);
            Resolve(fns, name).failed <==> d.Some? && exists j :: 0 <= j < |fns| && Full(fns, j, d.value)
    decreases |fns|
  {
    hide WellFormed, Keeps, Full, Meaning, Add, Mark, Resolve, Lexical;
    var k := |fns| - 1;
    ResolveStep(fns, name);
    if k == 0 {
      NoFunctions(fns[..k], name);
    } else {
      LexicalStep(fns, name);
      var slot := SlotOf(fns[k - 1].locals, name);
      if 0 <= slot {
        LocalFull(fns, slot);
        LevelsBelow(fns, Declaration(k - 1, slot));
        assert Resolve(fns, name).failed <==> Full(fns, k, Declaration(k - 1, slot));
      } else {
        assert fns[..k][..k - 1] == fns[..k - 1];
        PrefixWellFormed(fns, k);
        ResolveFails(fns[..k], name);
        ResolveMeans(fns[..k], name);
        if Lexical(fns[..k], name).Some? { FailsFurther(fns, name, Lexical(fns[..k], name).value); }
      }
    }
  }

  /** What resolving in the enclosing functions came to. */
  predicate OuterIs(front: seq<Fn>, outer: Outcome, d: Declaration)
    requires front != [] && WellFormed(front)
  {
    if outer.failed then exists j :: 0 <= j < |front| && Full(front, j, d)
    else
      && (forall j :: 0 <= j < |front| ==> !Full(front, j, d))
      && WellFormed(outer.fns) && Keeps(front, outer.fns) && |outer.fns| == |front|
      && 0 <= outer.index < |outer.fns[|front| - 1].upvalues| && Meaning(outer.fns, |front| - 1, outer.index) == d
  }

  lemma FailsFurther(fns: seq<Fn>, name: string, d: Declaration)
    requires |fns| > 1 && WellFormed(fns) && SlotOf(fns[|fns| - 2].locals, name) < 0 && WellFormed(fns[..|fns| - 1])
    requires OuterIs(fns[..|fns| - 1], Resolve(fns[..|fns| - 1], name), d)
    ensures Resolve(fns, name).failed <==> exists j :: 0 <= j < |fns| && Full(fns, j, d)
  {
    hide WellFormed, Keeps, Full, Meaning, Add, Mark, Resolve;
    var k := |fns| - 1;
    ResolveStep(fns, name);
    var outer := Resolve(fns[..k], name);
    FullPrefix(fns, k, d);
    if outer.failed {
      var j :| 0 <= j < k && Full(fns[..k], j, d);
      assert Full(fns, j, d);
    } else {
      OuterFull(fns, name, outer, d);
      if !Resolve(fns, name).failed {
        forall j | 0 <= j < |fns|
          ensures !Full(fns, j, d)
        {
          if j < k { assert !Full(fns[..k], j, d); }
        }
      }
    }
  }

  lemma LocalFull(fns: seq<Fn>, slot: nat)
    requires |fns| > 1 && WellFormed(fns) && slot < |fns[|fns| - 2].locals|
    ensures var k := |fns| - 1;
            Add(fns[k - 1 := Mark(fns[k - 1], slot)], Ref(true, slot), fns[k - 1].locals[slot].constant).failed
            <==> Full(fns, k, Declaration(k - 1, slot))
  {
    var k := |fns| - 1;
    forall i | 0 <= i < |fns[k].upvalues|
      ensures fns[k].upvalues[i] == Ref(true, slot) <==> Meaning(fns, k, i) == Declaration(k - 1, slot)
    {
      MeaningLevel(fns, k, i);
    }
  }

  lemma LevelsBelow(fns: seq<Fn>, d: Declaration)
    requires fns != [] && WellFormed(fns) && d.level == |fns| - 2
    ensures forall j :: 0 <= j < |fns| && Full(fns, j, d) ==> j == |fns| - 1
  {
  }

  lemma FullPrefix(fns: seq<Fn>, n: nat, d: Declaration)
    requires WellFormed(fns) && n <= |fns| && WellFormed(fns[..n])
    ensures forall j :: 0 <= j < n ==> (Full(fns[..n], j, d) <==> Full(fns, j, d))
  {
    forall j, i | 0 <= j < n && 0 <= i < |fns[j].upvalues|
      ensures Meaning(fns[..n], j, i) == Meaning(fns, j, i)
    {
      MeaningPrefix(fns, n, j, i);
    }
  }

  lemma OuterFull(fns: seq<Fn>, name: string, outer: Outcome, d: Declaration)
    requires |fns| > 1 && WellFormed(fns)
    requires var k := |fns| - 1;
             && SlotOf(fns[k - 1].locals, name) < 0 && outer == Resolve(fns[..k], name) && !outer.failed
             && WellFormed(outer.fns) && Keeps(fns[..k], outer.fns)
             && 0 <= outer.index < |outer.fns[k - 1].upvalues| && Meaning(outer.fns, k - 1, outer.index) == d
    ensures Resolve(fns, name).failed <==> Full(fns, |fns| - 1, d)
  {
    hide WellFormed, Keeps;
    var k := |fns| - 1;
    var joined := outer.fns + [fns[k]];
    AppendWellFormed(fns, outer.fns);
    assert joined[..k] == outer.fns;
    MeaningPrefix(joined, k, k - 1, outer.index);
    MeaningLevel(joined, k - 1, outer.index);
    forall i | 0 <= i < |fns[k].upvalues|
      ensures fns[k].upvalues[i] == Ref(false, outer.index) <==> Meaning(fns, k, i) == d
    {
      SameReference(fns, joined, k, i, outer.index, d);
    }
  }

  lemma SameReference(fns: seq<Fn>, joined: seq<Fn>, k: nat, i: nat, index: nat, d: Declaration)
    requires WellFormed(fns) && WellFormed(joined) && Keeps(fns, joined) && 0 < k < |fns| && i < |fns[k].upvalues|
    requires joined[k] == fns[k] && index < |joined[k - 1].upvalues| && Meaning(joined, k - 1, index) == d && d.level < k - 1
    ensures fns[k].upvalues[i] == Ref(false, index) <==> Meaning(fns, k, i) == d
  {
    KeepsExtends(fns, joined, k);
    MeaningStable(fns, joined, k, i);
    MeaningLevel(joined, k, i);
    var r := joined[k].upvalues[i];
    assert RefOk(joined, k, r);
    if !r.isLocal && Meaning(joined, k, i) == d { MeaningInjective(joined, k - 1, r.index, index); }
  }

  // ---- captured constants ----

  predicate FlagOk(fns: seq<Fn>, k: nat, i: nat)
    requires k < |fns| && i < |fns[k].upvalues| && i < |fns[k].constants| && RefOk(fns, k, fns[k].upvalues[i])
  {
    var r := fns[k].upvalues[i];
    fns[k].constants[i] == if r.isLocal then fns[k - 1].locals[r.index].constant else Flag(fns[k - 1], r.index)
  }

  /** Every upvalue has the flag of what it refers to. */
  predicate FlagsRight(fns: seq<Fn>) {
    && WellFormed(fns)
    && (forall k :: 0 <= k < |fns| ==> |fns[k].constants| == |fns[k].upvalues|)
    && forall k, i :: 0 <= k < |fns| && 0 <= i < |fns[k].upvalues| ==> RefOk(fns, k, fns[k].upvalues[i]) && FlagOk(fns, k, i)
  }

  /** An upvalue is flagged if and only if the local it stands for is. */
  lemma {:induction false} FlagMeans(fns: seq<Fn>, k: nat, i: nat)
    requires FlagsRight(fns) && k < |fns| && i < |fns[k].upvalues|
    ensures var d := Meaning(fns, k, i); d.level < |fns| && d.slot < |fns[d.level].locals|
    ensures var d := Meaning(fns, k, i); fns[k].constants[i] <==> fns[d.level].locals[d.slot].constant
    decreases k
  {
    MeaningLevel(fns, k, i);
    var r := fns[k].upvalues[i];
    assert RefOk(fns, k, r) && FlagOk(fns, k, i);
    if !r.isLocal { FlagMeans(fns, k - 1, r.index); }
  }

  /** Functions that keep what they had, with new upvalues flagged right, are flagged right. */
  lemma FlagsKept(fns: seq<Fn>, later: seq<Fn>, k: nat)
    requires FlagsRight(fns) && WellFormed(later) && Keeps(fns, later) && k < |fns|
    requires forall j :: 0 <= j < |fns| && j != k ==> later[j].upvalues == fns[j].upvalues && later[j].constants == fns[j].constants
    requires |later[k].constants| == |later[k].upvalues| <= |fns[k].upvalues| + 1
    requires var i := |fns[k].upvalues|; i < |later[k].upvalues| ==> RefOk(later, k, later[k].upvalues[i]) && FlagOk(later, k, i)
    ensures FlagsRight(later)
  {
    forall j, i | 0 <= j < |later| && 0 <= i < |later[j].upvalues|
      ensures RefOk(later, j, later[j].upvalues[i]) && FlagOk(later, j, i)
    {
      if j != k || i < |fns[k].upvalues| {
        assert RefOk(fns, j, fns[j].upvalues[i]) && FlagOk(fns, j, i);
      }
    }
  }

  lemma FlagsAdd(fns: seq<Fn>, r: Ref)
    requires fns != [] && FlagsRight(fns) && RefOk(fns, |fns| - 1, r)
    ensures var k := |fns| - 1;
            var o := Add(fns, r, if r.isLocal then fns[k - 1].locals[r.index].constant else Flag(fns[k - 1], r.index));
            !o.failed ==> FlagsRight(o.fns)
  {
    hide WellFormed;
    var k := |fns| - 1;
    var constant := if r.isLocal then fns[k - 1].locals[r.index].constant else Flag(fns[k - 1], r.index);
    AddKeeps(fns, r, constant);
    var o := Add(fns, r, constant);
    if !o.failed { FlagsKept(fns, o.fns, k); }
  }

  lemma FlagsAppend(fns: seq<Fn>, outer: seq<Fn>)
    requires fns != [] && FlagsRight(fns) && |outer| == |fns| - 1 && FlagsRight(outer) && Keeps(fns[..|fns| - 1], outer)
    ensures FlagsRight(outer + [fns[|fns| - 1]])
  {
    var k := |fns| - 1;
    var all := outer + [fns[k]];
    AppendWellFormed(fns, outer);
    forall j, i | 0 <= j < |all| && 0 <= i < |all[j].upvalues|
      ensures RefOk(all, j, all[j].upvalues[i]) && FlagOk(all, j, i)
    {
      if j < k { assert RefOk(outer, j, outer[j].upvalues[i]) && FlagOk(outer, j, i); }
      else {
        assert RefOk(fns, k, fns[k].upvalues[i]) && FlagOk(fns, k, i);
        if k > 0 { assert fns[..k][k - 1] == fns[k - 1] && all[k - 1] == outer[k - 1]; }
      }
    }
  }

  lemma FlagsPrefix(fns: seq<Fn>, n: nat)
    requires FlagsRight(fns) && n <= |fns|
    ensures FlagsRight(fns[..n])
  {
    PrefixWellFormed(fns, n);
    forall j, i | 0 <= j < n && 0 <= i < |fns[j].upvalues|
      ensures RefOk(fns[..n], j, fns[..n][j].upvalues[i]) && FlagOk(fns[..n], j, i)
    {
      assert RefOk(fns, j, fns[j].upvalues[i]) && FlagOk(fns, j, i);
    }
  }

  lemma {:induction false} ResolveFlags(fns: seq<Fn>, name: string)
    requires fns != [] && FlagsRight(fns)
    ensures var o := Resolve(fns, name); !o.failed ==> FlagsRight(o.fns)
    decreases |fns|
  {
    hide FlagsRight, FlagOk, WellFormed, Keeps, Resolve, Add;
    var k := |fns| - 1;
    assert WellFormed(fns) by { FlagsWellFormed(fns); }
    ResolveStep(fns, name);
    if k > 0 {
      var slot := SlotOf(fns[k - 1].locals, name);
      if 0 <= slot {
        var marked := fns[k - 1 := Mark(fns[k - 1], slot)];
        FlagsMark(fns, k - 1, slot);
        FlagsAdd(marked, Ref(true, slot));
      } else {
        FlagsPrefix(fns, k);
        FlagsWellFormed(fns[..k]);
        ResolveFlags(fns[..k], name);
        ResolveMeans(fns[..k], name);
        var outer := Resolve(fns[..k], name);
        if !outer.failed {
          FlagsAppend(fns, outer.fns);
          if outer.index >= 0 { FlagsAdd(outer.fns + [fns[k]], Ref(false, outer.index)); }
        }
      }
    }
  }

  lemma FlagsWellFormed(fns: seq<Fn>)
    requires FlagsRight(fns)
    ensures WellFormed(fns)
  {
  }

  lemma FlagsMark(fns: seq<Fn>, k: nat, slot: nat)
    requires FlagsRight(fns) && k < |fns| && slot < |fns[k].locals|
    ensures FlagsRight(fns[k := Mark(fns[k], slot)])
  {
    hide WellFormed;
    MarkKeeps(fns, k, slot);
    FlagsKept(fns, fns[k := Mark(fns[k], slot)], k);
  }
}
