/** The chain of compilers of nested functions, updated in place while a name is resolved. */
module FunctionCompiler {
  import opened Options
  import opened Resolution
  import opened Nesting
  import Access

  class FnCompiler {
    const enclosing: FnCompiler?
    /** The compilers of all functions around this one, outermost first, and this one. */
    ghost const chain: seq<FnCompiler>
    var locals: seq<Local>
    var upvalues: seq<Ref>
    var constants: seq<bool>
    var scopeDepth: nat

    ghost predicate Nested()
      decreases |chain|
    {
      && chain != [] && chain[|chain| - 1] == this && this !in chain[..|chain| - 1]
      && (enclosing == null <==> |chain| == 1)
      && (enclosing != null ==> enclosing.chain == chain[..|chain| - 1] && enclosing.Nested())
    }

    ghost function State(): seq<Fn>
      reads chain
    {
      Snapshot(chain)
    }

    /** A function begins with the scope of its parameters, the script with none. */
    constructor (enclosing: FnCompiler?)
      requires enclosing != null ==> enclosing.Nested()
      ensures Nested() && this.enclosing == enclosing
      ensures Fn(locals, upvalues, constants, scopeDepth) == NewFn(if enclosing == null then 0 else 1)
      ensures chain == (if enclosing == null then [] else enclosing.chain) + [this]
    {
      this.enclosing := enclosing;
      locals, upvalues, constants := [Local("", false, false, 0, false)], [], [];
      scopeDepth := if enclosing == null then 0 else 1;
      chain := (if enclosing == null then [] else enclosing.chain) + [this];
      new;
      assert enclosing != null ==> enclosing.chain == chain[..|chain| - 1];
    }

    method FindLocal(name: string) returns (slot: int)
      ensures slot == SlotOf(locals, name)
    {
      var i := |locals| - 1;
      while i >= 0
        invariant -1 <= i < |locals| && forall j :: i < j < |locals| ==> locals[j].name != name
      {
        if locals[i].name == name { return i; }
        i := i - 1;
      }
      return -1;
    }

    method AddUpvalue(index: nat, isLocal: bool, constant: bool) returns (i: int, failed: bool)
      requires Nested()
      modifies this`upvalues, this`constants
      ensures var o := Add(old(State()), Ref(isLocal, index), constant);
              failed == o.failed && (!failed ==> i == o.index && State() == o.fns)
    {
      ghost var before := State();
      SnapshotAt(chain, |chain| - 1);
      i := 0;
      while i < |upvalues|
        invariant 0 <= i <= |upvalues| && upvalues == old(upvalues) && constants == old(constants)
        invariant Ref(isLocal, index) !in upvalues[..i]
      {
        if upvalues[i] == Ref(isLocal, index) {
          FindFirst(upvalues, i);
          return i, false;
        }
        i := i + 1;
      }
      assert upvalues[..i] == upvalues;
      if |upvalues| == LIMIT { return 0, true; }
      upvalues, constants := upvalues + [Ref(isLocal, index)], constants + [constant];
      SnapshotUpdate(before, chain, |chain| - 1);
      return |upvalues| - 1, false;
    }

    method AddLocal(name: Name, keyword: bool) returns (failed: bool)
      requires Nested()
      modifies this`locals
      ensures Step(old(State()), Declare(name, keyword)) == if failed then None else Some(State())
    {
      ghost var before := State();
      SnapshotAt(chain, |chain| - 1);
      if IsPending() || scopeDepth == 0 { return true; }
      var i := |locals|;
      assert locals[..i] == locals;
      while i > 0 && (!locals[i - 1].Defined() || locals[i - 1].depth >= scopeDepth)
        invariant 0 <= i <= |locals| && Redeclared(locals, name, scopeDepth) == Redeclared(locals[..i], name, scopeDepth)
      {
        assert locals[..i][..i - 1] == locals[..i - 1];
        if locals[i - 1].name == name { return true; }
        i := i - 1;
      }
      if |locals| == LOCALS { return true; }
      locals := locals + [Declared(name, keyword)];
      SnapshotUpdate(before, chain, |chain| - 1);
      return false;
    }

    /** The initialiser of the last local is being compiled. */
    predicate IsPending()
      reads this`locals
    {
      locals != [] && !locals[|locals| - 1].Defined()
    }

    method DefineVariable() returns (failed: bool)
      requires Nested()
      modifies this`locals
      ensures Step(old(State()), Define) == if failed then None else Some(State())
    {
      ghost var before := State();
      SnapshotAt(chain, |chain| - 1);
      if !IsPending() { return true; }
      var last := locals[|locals| - 1];
      locals := locals[|locals| - 1 := last.(depth := scopeDepth, constant := last.keyword)];
      SnapshotUpdate(before, chain, |chain| - 1);
      return false;
    }

    method BeginScope() returns (failed: bool)
      requires Nested()
      modifies this`scopeDepth
      ensures Step(old(State()), Event.BeginScope) == if failed then None else Some(State())
    {
      ghost var before := State();
      SnapshotAt(chain, |chain| - 1);
      if IsPending() { return true; }
      scopeDepth := scopeDepth + 1;
      SnapshotUpdate(before, chain, |chain| - 1);
      return false;
    }

    /** The locals of the scope that ends go, one after the other. */
    method EndScope() returns (failed: bool)
      requires Nested()
      modifies this`scopeDepth, this`locals
      ensures Step(old(State()), Event.EndScope) == if failed then None else Some(State())
    {
      ghost var before, all := State(), locals;
      SnapshotAt(chain, |chain| - 1);
      if IsPending() || scopeDepth <= (if enclosing == null then 0 else 1) { return true; }
      scopeDepth := scopeDepth - 1;
      while |locals| > 0 && locals[|locals| - 1].depth > scopeDepth
        invariant Shallow(locals, scopeDepth) == Shallow(all, scopeDepth)
        invariant upvalues == old(upvalues) && constants == old(constants) && scopeDepth == old(scopeDepth) - 1
      {
        locals := locals[..|locals| - 1];
      }
      SnapshotUpdate(before, chain, |chain| - 1);
      return false;
    }

    /** A local of the function, or else an upvalue, or else (-1) a module variable. */
    method UseName(name: Name) returns (failed: bool)
      requires Nested()
      modifies chain
      ensures Step(old(State()), Use(name)) == if failed then None else Some(State())
    {
      hide Resolve, Snapshot;
      SnapshotAt(chain, |chain| - 1);
      var slot := FindLocal(name);
      if slot != -1 { return !locals[slot].Defined(); }
      var index;
      index, failed := ResolveUpvalue(name);
    }

    /** Constants, declared here or captured, cannot be assigned. */
    method AssignName(name: Name) returns (failed: bool)
      requires Nested()
      modifies chain
      ensures Step(old(State()), Assign(name)) == if failed then None else Some(State())
    {
      hide Resolve, Snapshot;
      SnapshotAt(chain, |chain| - 1);
      var slot := FindLocal(name);
      if slot != -1 { return !locals[slot].Defined() || locals[slot].constant; }
      var index;
      index, failed := ResolveUpvalue(name);
      if failed { return true; }
      SnapshotAt(chain, |chain| - 1);
      return index != -1 && IsConstant(index);
    }

    predicate IsConstant(upvalue: nat)
      reads this`constants
    {
      upvalue < |constants| && constants[upvalue]
    }

    /** If the immediately enclosing function declares the name, it is captured there; otherwise all
        functions in between get an upvalue for it. */
    method ResolveUpvalue(name: string) returns (index: int, failed: bool)
      requires Nested()
      modifies chain
      ensures var o := Resolve(old(State()), name);
              failed == o.failed && (!failed ==> index == o.index && State() == o.fns)
      decreases |chain|
    {
      hide Resolve, Add, Snapshot;
      ghost var k, before := |chain| - 1, State();
      ResolveStep(before, name);
      if enclosing == null { return -1, false; }
      EnclosingState(chain, enclosing.chain);
      SnapshotAt(chain, k - 1);
      SnapshotAt(chain, k);
      var local := enclosing.FindLocal(name);
      if local != -1 {
        index, failed := CaptureLocal(local);
        return;
      }
      var upvalue;
      upvalue, failed := enclosing.ResolveUpvalue(name);
      if failed { return 0, true; }
      Innermost(before, chain, enclosing.chain);
      SnapshotAt(enclosing.chain, k - 1);
      if upvalue != -1 {
        index, failed := AddUpvalue(upvalue, false, enclosing.IsConstant(upvalue));
        return;
      }
      return -1, false;
    }

    method CaptureLocal(slot: nat) returns (index: int, failed: bool)
      requires Nested() && enclosing != null && slot < |enclosing.locals| == |State()[|chain| - 2].locals|
      modifies this, enclosing
      ensures var k := |chain| - 1;
              var before := old(State());
              var o := Add(before[k - 1 := Mark(before[k - 1], slot)], Ref(true, slot), before[k - 1].locals[slot].constant);
              failed == o.failed && (!failed ==> index == o.index && State() == o.fns)
    {
      hide Add;
      ghost var k, before := |chain| - 1, State();
      enclosing.locals := enclosing.locals[slot := enclosing.locals[slot].(isUpvalue := true)];
      SnapshotUpdate(before, chain, k - 1);
      index, failed := AddUpvalue(slot, true, enclosing.locals[slot].constant);
    }
  }

  /** One event, on the compiler that is innermost; the one that is innermost then. */
  method Perform(c: FnCompiler, e: Event) returns (next: FnCompiler, failed: bool)
    requires c.Nested()
    modifies c.chain
    ensures next.Nested() && forall i :: 0 <= i < |next.chain| ==> next.chain[i] in c.chain || fresh(next.chain[i])
    ensures Step(old(c.State()), e) == if failed then None else Some(next.State())
  {
    hide Snapshot, Resolve;
    next, failed := c, false;
    match e
    case Enter =>
      next := new FnCompiler(c);
      Innermost(c.State() + [NewFn(1)], next.chain, c.chain);
    case BeginScope => failed := c.BeginScope();
    case Declare(name, keyword) => failed := c.AddLocal(name, keyword);
    case Define => failed := c.DefineVariable();
    case EndScope => failed := c.EndScope();
    case Use(name) => failed := c.UseName(name);
    case Assign(name) => failed := c.AssignName(name);
    case Leave =>
      SnapshotAt(c.chain, |c.chain| - 1);
      if c.enclosing == null || c.IsPending() || c.scopeDepth != 1 { return c, true; }
      next := c.enclosing;
      EnclosingState(c.chain, next.chain);
  }

  /** All events in order. Fails exactly if there is no run of them; that is at the first event that those before it forbid,
      or that needs an upvalue too many. */
  method CompileAll(events: seq<Event>) returns (ok: bool, ghost states: seq<seq<Fn>>)
    ensures ok ==> Run(events, states)
    ensures ok <==> exists r :: Run(events, r)
    ensures ok ==> forall t :: 0 <= t < |events| ==> !Access.Refused(events, t, events[t])
    ensures !ok ==> exists t, r :: 0 <= t < |events| && Run(events[..t], r) && StopsAt(events, r, t)
  {
    hide Step, Snapshot;
    var c := new FnCompiler(null);
    states := [c.State()];
    SnapshotAt(c.chain, 0);
    assert events[..0] == [];
    for t := 0 to |events|
      invariant c.Nested() && (forall i :: 0 <= i < |c.chain| ==> fresh(c.chain[i])) && |states| == t + 1
      invariant Run(events[..t], states) && states[t] == c.State()
      invariant forall r :: Run(events, r) ==> r[..t + 1] == states
    {
      var failed;
      c, failed := Perform(c, events[t]);
      if failed {
        NoRun(events, states, t);
        Stops(events, states, t);
        return false, [];
      }
      OneMoreEvent(events, states, t, c.State());
      states := states + [c.State()];
    }
    assert events[..|events|] == events;
    NotRefused(events, states);
    return true, states;
  }

  /** Those before event `t` forbid it, or it needs an upvalue too many. */
  predicate StopsAt(events: seq<Event>, states: seq<seq<Fn>>, t: nat)
    requires t < |events| && Run(events[..t], states)
  {
    && states[t] != []
    && (Access.Refused(events[..t], t, events[t]) || Access.TooMany(events[..t], states, t, events[t]))
  }

  lemma Stops(events: seq<Event>, states: seq<seq<Fn>>, t: nat)
    requires t < |events| && Run(events[..t], states) && states[t] != [] && Step(states[t], events[t]) == None
    ensures StopsAt(events, states, t)
  {
    hide Step, Access.Refused, Access.TooMany;
    Access.RefusedIff(events[..t], states, t, events[t]);
  }

  lemma NotRefused(events: seq<Event>, states: seq<seq<Fn>>)
    requires Run(events, states)
    ensures forall t :: 0 <= t < |events| ==> !Access.Refused(events, t, events[t])
  {
    hide Step, Access.Refused, Access.TooMany;
    forall t | 0 <= t < |events|
      ensures !Access.Refused(events, t, events[t])
    {
      assert StepsTo(states[t], events[t], states[t + 1]);
      Access.RefusedIff(events, states, t, events[t]);
    }
  }

  lemma NoRun(events: seq<Event>, states: seq<seq<Fn>>, t: nat)
    requires t < |events| && |states| == t + 1 && states[t] != [] && Step(states[t], events[t]) == None
    requires forall r :: Run(events, r) ==> r[..t + 1] == states
    ensures !exists r :: Run(events, r)
  {
    forall r
      ensures !Run(events, r)
    {
      if |r| == |events| + 1 && r[..t + 1] == states {
        assert r[t] == states[t] && !StepsTo(r[t], events[t], r[t + 1]);
      }
    }
  }

  lemma OneMoreEvent(events: seq<Event>, states: seq<seq<Fn>>, t: nat, next: seq<Fn>)
    requires t < |events| && Run(events[..t], states) && StepsTo(states[t], events[t], next)
    requires forall r :: Run(events, r) ==> r[..t + 1] == states
    ensures Run(events[..t + 1], states + [next]) && forall r :: Run(events, r) ==> r[..t + 2] == states + [next]
  {
    hide Step;
    var more, all := events[..t + 1], states + [next];
    forall i | 0 <= i < |more|
      ensures StepsTo(all[i], more[i], all[i + 1])
    {
      if i < t { assert StepsTo(states[i], events[..t][i], states[i + 1]); }
    }
    forall r | Run(events, r)
      ensures r[..t + 2] == all
    {
      assert StepsTo(r[t], events[t], r[t + 1]);
      assert r[..t + 1][t] == r[t] && r[..t + 2] == r[..t + 1] + [r[t + 1]];
    }
  }

  /** Changes further out leave the innermost function as it was. */
  lemma Innermost(before: seq<Fn>, chain: seq<FnCompiler>, outer: seq<FnCompiler>)
    requires chain != [] && outer == chain[..|chain| - 1] && |before| == |chain|
    requires var c := chain[|chain| - 1]; before[|chain| - 1] == Fn(c.locals, c.upvalues, c.constants, c.scopeDepth)
    ensures Snapshot(chain) == Snapshot(outer) + [before[|chain| - 1]]
  {
  }

  ghost function Snapshot(chain: seq<FnCompiler>): (s: seq<Fn>)
    reads chain
    ensures |s| == |chain|
  {
    seq(|chain|, i requires 0 <= i < |chain| reads chain => Fn(chain[i].locals, chain[i].upvalues, chain[i].constants, chain[i].scopeDepth))
  }

  lemma SnapshotAt(chain: seq<FnCompiler>, i: nat)
    requires i < |chain|
    ensures Snapshot(chain)[i] == Fn(chain[i].locals, chain[i].upvalues, chain[i].constants, chain[i].scopeDepth)
  {
  }

  lemma EnclosingState(chain: seq<FnCompiler>, outer: seq<FnCompiler>)
    requires chain != [] && outer == chain[..|chain| - 1]
    ensures Snapshot(chain)[..|chain| - 1] == Snapshot(outer)
  {
  }

  lemma SnapshotUpdate(before: seq<Fn>, chain: seq<FnCompiler>, i: nat)
    requires |before| == |chain| && i < |chain|
    requires forall j :: 0 <= j < |chain| && j != i ==> before[j] == Fn(chain[j].locals, chain[j].upvalues, chain[j].constants, chain[j].scopeDepth)
    ensures Snapshot(chain) == before[i := Fn(chain[i].locals, chain[i].upvalues, chain[i].constants, chain[i].scopeDepth)]
  {
  }

  lemma {:induction false} FindFirst(refs: seq<Ref>, i: nat)
    requires i < |refs| && refs[i] !in refs[..i]
    ensures Find(refs, refs[i]) == i
    decreases i
  {
    if i > 0 {
      assert refs[1..][..i - 1] == refs[..i][1..];
      assert refs[0] == refs[..i][0];
      FindFirst(refs[1..], i - 1);
    }
  }
}
