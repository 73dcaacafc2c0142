/** The emitted code on the machine with its stack and its open upvalues. */
module Processing {
  import opened Options
  import opened Upvalues
  import opened Discarding
  import opened Emission

  /** The machine with its stack, its frames and its open upvalues. */
  class Processor {
    const prog: seq<Code>
    const vm: Vm
    var frames: seq<Frame>
    var bits: seq<bool>
    /** All that was done. */
    var did: seq<Did>

    function State(): Config
      reads this, vm
    {
      Config(frames, |vm.stack|, bits, did)
    }

    ghost predicate Valid()
      reads this`did, vm, vm.all
    {
      vm.Valid() && Replay(START, did).Some? && Matches(vm, Replay(START, did).value)
    }

    constructor (fns: seq<Function>, bits: seq<bool>)
      requires fns != []
      ensures Valid() && fresh(vm) && fresh(vm.all) && prog == Program(fns) && State() == Start(fns, bits)
    {
      hide Vm.Valid, Replay;
      prog, frames, this.bits, did := Program(fns), [Frame(0, 0, 0)], bits, [];
      vm := new Vm();
      new;
      ReplayNothing(START);
      for i := 0 to 1 + fns[0].arity
        invariant Valid() && fresh(vm) && fresh(vm.all) && did == seq(i, j => Pushed) && |vm.stack| == i
        invariant frames == [Frame(0, 0, 0)] && this.bits == bits
      {
        ReplayNext(START, did, Pushed);
        Do(Pushed);
      }
    }

    /** One thing, and what becomes of the shape. */
    method Do(d: Did)
      requires Valid() && Replay(START, did + [d]).Some?
      modifies this`did, vm, vm.all
      ensures Valid() && did == old(did) + [d] && old(vm.all) <= vm.all && fresh(vm.all - old(vm.all))
      ensures d.TempPopped? || d.VariablePopped? || d.Closed? ==> |vm.stack| == |old(vm.stack)| - 1
      ensures d.Pushed? ==> |vm.stack| == |old(vm.stack)| + 1
      ensures d.Returned? ==> |vm.stack| == d.slots + 1
    {
      hide Vm.Valid, Replay;
      ReplayNext(START, did, d);
      Discarding.Execute(vm, d, Replay(START, did).value);
      did := did + [d];
    }

    /** The instruction that is executed next. */
    function Fetched(): Option<Instr>
      reads this
    {
      if frames == [] then None
      else
        var f := frames[|frames| - 1];
        if f.fn < |prog| && 0 <= f.ip < |prog[f.fn]| then Some(prog[f.fn][f.ip]) else None
    }

    /** One instruction, unless the machine is blocked. Making a closure opens exactly the slots that it captures. */
    method Dispatch() returns (running: bool)
      requires Valid()
      requires var next := Step(prog, State()); next.Some? ==> Replay(START, next.value.did).Some?
      modifies this`frames, this`bits, this`did, vm, vm.all
      ensures Valid() && old(vm.all) <= vm.all && fresh(vm.all - old(vm.all))
      ensures var next := Step(prog, old(State())); running == next.Some? && State() == if running then next.value else old(State())
      ensures var x := old(Fetched());
              running && x.Some? && x.value.MakeClosure? ==>
                forall s: nat :: IsOpen(vm, s) <==> old(IsOpen(vm, s)) || s in SlotsOf(x.value.captured, old(frames[|frames| - 1].slots))
    {
      hide Vm.Valid, Replay, Matches, Valid, IsOpen, SlotsOf, Exec;
      if frames == [] { return false; }
      var f := frames[|frames| - 1];
      if !(f.fn < |prog| && 0 <= f.ip < |prog[f.fn]|) { return false; }
      var x := prog[f.fn][f.ip];
      match x {
        case JumpIfFalse(_) => running := Control(x);
        case Jump(_) => running := Control(x);
        case CallFunction(_, _) => running := Control(x);
        case ReturnValue => running := Control(x);
        case _ => running := OnStack(x);
      }
    }

    /** Instructions that push and pop. */
    method OnStack(x: Instr) returns (running: bool)
      requires Valid() && frames != [] && !x.JumpIfFalse? && !x.Jump? && !x.CallFunction? && !x.ReturnValue?
      requires var next := Exec(State(), x); next.Some? ==> Replay(START, next.value.did).Some?
      modifies this`frames, this`did, vm, vm.all
      ensures Valid() && old(vm.all) <= vm.all && fresh(vm.all - old(vm.all))
      ensures var next := Exec(old(State()), x); running == next.Some? && State() == if running then next.value else old(State())
      ensures x.MakeClosure? ==>
        forall s: nat :: IsOpen(vm, s) <==> old(IsOpen(vm, s)) || s in SlotsOf(x.captured, old(frames[|frames| - 1].slots))
    {
      hide Vm.Valid, Replay, Matches, Valid, IsOpen, SlotsOf, CapturedAll;
      var f := frames[|frames| - 1];
      match x {
        case PushValue => Do(Pushed);
        case MakeClosure(captured) => Make(captured, f.slots);
        case Operate =>
          if |vm.stack| < 2 { return false; }
          Combine();
        case PopValue(variable) =>
          if |vm.stack| == 0 { return false; }
          Do(if variable then VariablePopped else TempPopped);
        case CloseUpvalue =>
          if |vm.stack| == 0 { return false; }
          Do(Closed);
        case _ => return false;
      }
      Goto(f.ip + 1);
      running := true;
    }

    /** Instructions that go elsewhere. */
    method Control(x: Instr) returns (running: bool)
      requires Valid() && frames != [] && (x.JumpIfFalse? || x.Jump? || x.CallFunction? || x.ReturnValue?)
      requires var next := Exec(State(), x); next.Some? ==> Replay(START, next.value.did).Some?
      modifies this`frames, this`bits, this`did, vm, vm.all
      ensures Valid() && old(vm.all) <= vm.all && fresh(vm.all - old(vm.all))
      ensures var next := Exec(old(State()), x); running == next.Some? && State() == if running then next.value else old(State())
    {
      hide Vm.Valid, Replay, Matches, Valid;
      assert did + [] == did;
      var f := frames[|frames| - 1];
      match x {
        case JumpIfFalse(offset) =>
          if bits == [] { return false; }
          Goto(if bits[0] then f.ip + 1 else f.ip + offset);
          bits := bits[1..];
        case Jump(offset) => Goto(f.ip + offset);
        case CallFunction(count, callee) =>
          if bits == [] || |vm.stack| <= count { return false; }
          Goto(f.ip + 1);
          frames, bits := frames + [Frame(callee, 0, |vm.stack| - 1 - count)], bits[1..];
        case ReturnValue =>
          Do(Returned(f.slots));
          frames := frames[..|frames| - 1];
      }
      running := true;
    }

    method Goto(ip: int)
      requires frames != []
      modifies this`frames
      ensures frames == old(frames)[|old(frames)| - 1 := old(frames)[|old(frames)| - 1].(ip := ip)]
    {
      var f := frames[|frames| - 1];
      frames := frames[|frames| - 1 := f.(ip := ip)];
    }

    /** Two operands go, and the result comes. */
    method Combine()
      requires Valid() && Replay(START, did + [TempPopped, TempPopped, Pushed]).Some?
      modifies this`did, vm, vm.all
      ensures Valid() && did == old(did) + [TempPopped, TempPopped, Pushed]
      ensures old(vm.all) <= vm.all && fresh(vm.all - old(vm.all)) && |vm.stack| == |old(vm.stack)| - 1
    {
      hide Vm.Valid, Replay;
      ghost var before := did;
      ghost var all := before + [TempPopped, TempPopped, Pushed];
      ReplayPrefix(START, all, |before| + 1);
      ReplayPrefix(START, all, |before| + 2);
      assert all[..|before| + 1] == before + [TempPopped] && all[..|before| + 2] == before + [TempPopped] + [TempPopped];
      assert all == before + [TempPopped] + [TempPopped] + [Pushed];
      Do(TempPopped);
      Do(TempPopped);
      Do(Pushed);
    }

    /** The closure is pushed before it captures. */
    method Make(captured: seq<nat>, slots: nat)
      requires Valid() && Replay(START, did + ([Pushed] + CapturedAll(captured, slots))).Some?
      modifies this`did, vm, vm.all
      ensures Valid() && did == old(did) + ([Pushed] + CapturedAll(captured, slots))
      ensures old(vm.all) <= vm.all && fresh(vm.all - old(vm.all)) && |vm.stack| == |old(vm.stack)| + 1
      ensures forall s: nat :: IsOpen(vm, s) <==> old(IsOpen(vm, s)) || s in SlotsOf(captured, slots)
    {
      hide Vm.Valid, Replay, IsOpen, CapturedAll, SlotsOf;
      ghost var before, all := did, did + ([Pushed] + CapturedAll(captured, slots));
      OpenIs();
      ReplayPrefix(START, all, |did| + 1);
      assert all[..|did| + 1] == did + [Pushed];
      Do(Pushed);
      assert captured[..0] == [] && CapturedAll([], slots) == [] by { NoneCaptured(slots); }
      for i := 0 to |captured|
        invariant Valid() && old(vm.all) <= vm.all && fresh(vm.all - old(vm.all))
        invariant did == before + ([Pushed] + CapturedAll(captured[..i], slots))
      {
        CapturedMore(captured, i, slots);
        ghost var more := before + ([Pushed] + CapturedAll(captured[..i + 1], slots));
        assert more == did + [CapturedSlot(slots + captured[i])] == all[..|more|];
        ReplayPrefix(START, all, |more|);
        Do(CapturedSlot(slots + captured[i]));
      }
      assert captured[..|captured|] == captured;
      MakeOpens(before, captured, slots);
      OpenIs();
    }

    lemma OpenIs()
      requires Valid()
      ensures |vm.stack| == Replay(START, did).value.height
      ensures forall s: nat :: IsOpen(vm, s) <==> s in Replay(START, did).value.open
    {
      hide Vm.Valid, Replay;
    }
  }

  lemma NoneCaptured(slots: nat)
    ensures CapturedAll([], slots) == []
  {
  }

  lemma CapturedMore(captured: seq<nat>, i: nat, slots: nat)
    requires i < |captured|
    ensures CapturedAll(captured[..i + 1], slots) == CapturedAll(captured[..i], slots) + [CapturedSlot(slots + captured[i])]
    ensures CapturedAll(captured[..i + 1], slots) <= CapturedAll(captured, slots)
  {
  }

  lemma {:induction false} CapturedFit(m: Shape, captured: seq<nat>, slots: nat)
    requires Replay(m, CapturedAll(captured, slots)).Some?
    ensures Replay(m, CapturedAll(captured, slots)).value.height == m.height
    ensures forall i :: 0 <= i < |captured| ==> slots + captured[i] < m.height
    decreases |captured|
  {
    var n := |captured|;
    if n > 0 {
      assert CapturedAll(captured, slots)[..n - 1] == CapturedAll(captured[..n - 1], slots);
      CapturedFit(m, captured[..n - 1], slots);
    }
  }

  lemma MakeOpens(before: seq<Did>, captured: seq<nat>, slots: nat)
    requires Replay(START, before).Some? && Replay(START, before + ([Pushed] + CapturedAll(captured, slots))).Some?
    ensures var m, r := Replay(START, before).value, Replay(START, before + ([Pushed] + CapturedAll(captured, slots))).value;
            r == Shape(m.height + 1, m.open + SlotsOf(captured, slots), m.closed)
  {
    hide Replay, SlotsOf;
    var m := Replay(START, before).value;
    var pushed := m.(height := m.height + 1);
    ReplayBoth(START, before, [Pushed] + CapturedAll(captured, slots));
    ReplayBoth(m, [Pushed], CapturedAll(captured, slots));
    ReplayOne(m, Pushed);
    CapturedFit(pushed, captured, slots);
    CapturedOpen(pushed, captured, slots);
  }

  lemma ReplayNext(m: Shape, did: seq<Did>, d: Did)
    requires Replay(m, did).Some?
    ensures Replay(m, did + [d]) == if Possible(Replay(m, did).value, d) then Some(Discarding.Next(Replay(m, did).value, d)) else None
  {
    hide Possible;
    assert (did + [d])[..|did|] == did;
  }

  lemma ReplayPrefix(m: Shape, did: seq<Did>, i: nat)
    requires Replay(m, did).Some? && i <= |did|
    ensures Replay(m, did[..i]).Some?
  {
    hide Replay;
    assert did == did[..i] + did[i..];
    ReplayBoth(m, did[..i], did[i..]);
  }

  lemma {:induction false} DidGrows(prog: seq<Code>, c: Config, n: nat)
    ensures c.did <= Run(prog, c, n).did
    decreases n
  {
    hide Step;
    if n > 0 && Step(prog, c).Some? {
      StepGrows(prog, c);
      DidGrows(prog, Step(prog, c).value, n - 1);
    }
  }

  lemma StepGrows(prog: seq<Code>, c: Config)
    requires Step(prog, c).Some?
    ensures c.did <= Step(prog, c).value.did
  {
  }

  /** What is next is on the path. */
  lemma NextOnPath(prog: seq<Code>, c: Config, i: nat, n: nat, path: seq<Did>)
    requires i <= n && Run(prog, c, n).did == path && Replay(START, path).Some? && Step(prog, Run(prog, c, n)).None?
    ensures var next := Step(prog, Run(prog, c, i));
            if next.Some? then i < n && Replay(START, next.value.did).Some? && Run(prog, c, i + 1) == next.value
            else Run(prog, c, i) == Run(prog, c, n)
  {
    hide Run, Step, Replay;
    var r := Run(prog, c, i);
    RunAdd(prog, c, i, n - i);
    if Step(prog, r).Some? {
      RunAdd(prog, c, i, 1);
      OneStep(prog, r);
      NoStep(prog, r);
      RunAdd(prog, c, i + 1, n - i - 1);
      DidGrows(prog, Run(prog, c, i + 1), n - i - 1);
      var did := Run(prog, c, i + 1).did;
      assert path[..|did|] == did;
      ReplayPrefix(START, path, |did|);
    } else {
      Blocked(prog, r, n - i);
    }
  }

  lemma NoStep(prog: seq<Code>, c: Config)
    ensures Run(prog, c, 0) == c
  {
  }

  /** The code of a program, run on a new machine to its end or for want of an outcome: it has done exactly what is on the
      path, its upvalues are open as the path says, and at the end there is one value and nothing open. */
  method RunProgram(fns: seq<Function>, bits: seq<bool>) returns (m: Processor)
    requires FunctionsFit(fns) && fns != []
    ensures fresh(m) && fresh(m.vm) && m.prog == Program(fns) && m.Valid()
    ensures var p := ProgramPath(fns, bits);
            && m.did == p.did && m.bits == p.rest && (p.flow == Finished || (p.flow == Cut && p.rest == []))
            && Replay(START, p.did).Some? && Matches(m.vm, Replay(START, p.did).value)
            && (m.frames == [] <==> p.flow == Finished)
    ensures m.frames == [] ==> |m.vm.stack| == 1 && m.vm.openUpvalues == null
  {
    hide Vm.Valid, FunctionsFit, ProgramPath, Replay, Run, Step, Program, Start, Matches;
    m := new Processor(fns, bits);
    ghost var c, i, p := m.State(), 0, ProgramPath(fns, bits);
    ghost var n := ProgramRuns(fns, bits);
    ProgramSafe(fns, bits);
    NoStep(m.prog, c);
    var running := true;
    while running
      invariant m.Valid() && fresh(m.vm) && fresh(m.vm.all) && i <= n && m.State() == Run(m.prog, c, i)
      invariant !running ==> Step(m.prog, m.State()).None?
      decreases n - i, running
    {
      NextOnPath(m.prog, c, i, n, p.did);
      running := m.Dispatch();
      if running { i := i + 1; }
    }
    NextOnPath(m.prog, c, i, n, p.did);
    m.OpenIs();
    if m.frames == [] { NoneOpen(m.vm); }
  }

  lemma NoneOpen(vm: Vm)
    requires vm.Valid() && forall s: nat :: !IsOpen(vm, s)
    ensures vm.openUpvalues == null
  {
    TopOpen(vm);
    if vm.openUpvalues != null { assert IsOpen(vm, vm.openUpvalues.location); }
  }
}
