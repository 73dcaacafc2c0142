/** Source text to result: compiling a program and running what was emitted. */
module Interpreter {
  import opened Options
  import opened Values
  import opened Language
  import opened Semantics
  import opened Bytecode
  import opened Layout
  import opened Limits
  import opened Machine
  import opened Preservation
  import opened StackHeight
  import opened CaseLabels
  import opened WideRuns
  import Acceptance
  import Compiler

  /** The run of the program comes to a case label of more than 256 values. */
  ghost predicate MeetsWide(alu: Alu, program: Items, g0: map<string, Value>) {
    exists fuel: nat :: ExecItems(alu, program, true, State([], g0), fuel).Wide?
  }

  /** No program within the limit of 256 values a label comes to that. */
  lemma NarrowMeetsNone(alu: Alu, program: Items, g0: map<string, Value>)
    requires NarrowItems(program)
    ensures !MeetsWide(alu, program, g0)
  {
    forall fuel: nat ensures !ExecItems(alu, program, true, State([], g0), fuel).Wide? {
      ItemsWide(alu, program, true, State([], g0), fuel);
    }
  }

  lemma UnseenWide(further: nat)
    requires further >= LABEL_LIMIT
    ensures Unseen(further) >= 256 && Unseen(further) % 256 == 0
  {
  }

  /** Such a run is the one thing that goes wrong, and goes wrong there: the values that the count of the label does not
      see, a multiple of 256, are then too many. */
  lemma WideOverfills(alu: Alu, ch: Chunk, program: Items, callee: Value, g0: map<string, Value>)
    requires ProgramAt(ch, program) && MeetsWide(alu, program, g0)
    ensures exists n: nat, st: State, v: Value, further: nat ::
              && Overfull(StepN(alu, ch, Running(0, [callee], g0), n), st, v, further, callee)
              && Unseen(further) >= 256 && Unseen(further) % 256 == 0
  {
    hide StepN, Step, ProgramAt, ExecItems, Overfull;
    var fuel: nat :| ExecItems(alu, program, true, State([], g0), fuel).Wide?;
    var r := ExecItems(alu, program, true, State([], g0), fuel);
    var n := ProgramRuns(alu, ch, program, callee, g0, fuel);
    ItemsWide(alu, program, true, State([], g0), fuel);
    UnseenWide(r.further);
    assert Overfull(StepN(alu, ch, Running(0, [callee], g0), n), r.state, r.subject, r.further, callee);
  }

  /** Once a run has stopped after `m` steps, any later look at it shows the same thing. */
  lemma BothStop(alu: Alu, ch: Chunk, c: Config, m: nat, k: nat)
    requires !StepN(alu, ch, c, m).Running?
    ensures m <= k ==> StepN(alu, ch, c, k) == StepN(alu, ch, c, m)
    ensures !StepN(alu, ch, c, k).Running? ==> StepN(alu, ch, c, k) == StepN(alu, ch, c, m)
  {
    hide StepN, Step;
    if m <= k {
      StepsAdd(alu, ch, c, m, k - m);
      StoppedStays(alu, ch, StepN(alu, ch, c, m), k - m);
    } else if !StepN(alu, ch, c, k).Running? {
      StepsAdd(alu, ch, c, k, m - k);
      StoppedStays(alu, ch, StepN(alu, ch, c, k), m - k);
    }
  }

  /** The exact condition under which a program leaves the stack as it should: a machine that has halted has an empty
      stack if and only if the run came to no label of more than 256 values. */
  lemma HeightTellsWide(alu: Alu, ch: Chunk, program: Items, callee: Value, g0: map<string, Value>, n: nat)
    requires ProgramAt(ch, program)
    ensures var c := StepN(alu, ch, Running(0, [callee], g0), n);
            c.Halted? ==> (c.stack == [] <==> !MeetsWide(alu, program, g0))
  {
    hide StepN, Step, ProgramAt, ExecItems, Overfull;
    var c := Running(0, [callee], g0);
    if StepN(alu, ch, c, n).Halted? {
      if fuel: nat :| ExecItems(alu, program, true, State([], g0), fuel).Wide? {
        ProgramStrays(alu, ch, program, callee, g0, fuel, n);
      } else {
        var k := ProgramRuns(alu, ch, program, callee, g0, n + 1);
        assert !ExecItems(alu, program, true, State([], g0), n + 1).Wide?;
        BothStop(alu, ch, c, n, k);
      }
    }
  }

  /** Compiled code never reads a missing operand, jumps out of the code or underflows the stack, whatever the labels and
      however long it runs; and what it leaves on the stack is a multiple of 256 values. */
  lemma NeverStuck(alu: Alu, ch: Chunk, program: Items, callee: Value, g0: map<string, Value>, n: nat)
    requires ProgramAt(ch, program)
    ensures var c := StepN(alu, ch, Running(0, [callee], g0), n);
            !c.Stuck? && (c.Halted? ==> |c.stack| % 256 == 0)
  {
    hide StepN, Step, ProgramAt;
    var s := Setting(alu, ch, 0);
    ProgramStands(s, program, 0, n);
    assert Raised(Running(0, [callee], g0), 0, 1);
    GoodAfter(s, Running(0, [callee], g0), n);
  }

  /** Compilation neither adds nor loses behaviour, for every program: the machine halts with an empty stack and the
      globals `g` if and only if the program terminates with those globals. */
  lemma HaltsIffTerminates(alu: Alu, ch: Chunk, program: Items, callee: Value, g0: map<string, Value>, g: map<string, Value>)
    requires ProgramAt(ch, program)
    ensures (exists n: nat :: StepN(alu, ch, Running(0, [callee], g0), n) == Halted([], g))
            <==> (exists fuel: nat :: ExecItems(alu, program, true, State([], g0), fuel) == Done(Normal, State([], g)))
  {
    hide StepN, Step, ProgramAt, ExecItems, Overfull;
    var c := Running(0, [callee], g0);
    if fuel: nat :| ExecItems(alu, program, true, State([], g0), fuel) == Done(Normal, State([], g)) {
      var n := ProgramRuns(alu, ch, program, callee, g0, fuel);
      assert StepN(alu, ch, c, n) == Halted([], g);
    }
    if n: nat :| StepN(alu, ch, c, n) == Halted([], g) {
      HeightTellsWide(alu, ch, program, callee, g0, n);
      var k := ProgramRuns(alu, ch, program, callee, g0, n + 1);
      BothStop(alu, ch, c, n, k);
      assert ExecItems(alu, program, true, State([], g0), n + 1) == Done(Normal, State([], g));
    }
  }

  /** Likewise for runtime errors: a program faults exactly when the machine does. */
  lemma FaultsIffCrashes(alu: Alu, ch: Chunk, program: Items, callee: Value, g0: map<string, Value>, g: map<string, Value>)
    requires ProgramAt(ch, program)
    ensures (exists fuel: nat :: ExecItems(alu, program, true, State([], g0), fuel) == Crash(g))
            ==> (exists n: nat :: StepN(alu, ch, Running(0, [callee], g0), n) == Faulted(g))
    ensures !MeetsWide(alu, program, g0) ==>
            ((exists n: nat :: StepN(alu, ch, Running(0, [callee], g0), n) == Faulted(g))
            <==> (exists fuel: nat :: ExecItems(alu, program, true, State([], g0), fuel) == Crash(g)))
  {
    hide StepN, Step, ProgramAt, ExecItems, Overfull;
    var c := Running(0, [callee], g0);
    if fuel: nat :| ExecItems(alu, program, true, State([], g0), fuel) == Crash(g) {
      var n := ProgramRuns(alu, ch, program, callee, g0, fuel);
      assert StepN(alu, ch, c, n) == Faulted(g);
    }
    if !MeetsWide(alu, program, g0) {
      if n: nat :| StepN(alu, ch, c, n) == Faulted(g) {
        var k := ProgramRuns(alu, ch, program, callee, g0, n + 1);
        BothStop(alu, ch, c, n, k);
        assert ExecItems(alu, program, true, State([], g0), n + 1) == Crash(g);
      }
    }
  }

  /** What a run that has stopped says about the program. */
  ghost predicate Explains(alu: Alu, program: Items, g0: map<string, Value>, c: Config) {
    match c
    case Running(_, _, _) => true
    case Halted(stack, g) =>
      if stack != [] then MeetsWide(alu, program, g0)
      else exists fuel: nat :: ExecItems(alu, program, true, State([], g0), fuel) == Done(Normal, State([], g))
    case Faulted(g) =>
      MeetsWide(alu, program, g0) || exists fuel: nat :: ExecItems(alu, program, true, State([], g0), fuel) == Crash(g)
    case Stuck => false
  }

  /** Compiles and runs `program` for at most `limit` instructions. Exactly the programs within the limits compile,
      and whatever the run comes to is what the program means; the height of the stack tells when it may not be. */
  method Interpret(alu: Alu, program: Items, callee: Value, g0: map<string, Value>, limit: nat) returns (r: Option<Config>)
    ensures r.None? <==> CheckItems(program, [Local("", 0, false)], 0, NoLoop, 0, Pool([], map[], {})).None?
    ensures r.Some? ==> Explains(alu, program, g0, r.value)
    ensures r.Some? ==> Acceptance.Proper(program)
    ensures Acceptance.Proper(program) && ItemsLen(program, true, 0) <= 65535 ==> r.Some?
  {
    hide StepN, Step, ProgramAt, ExecItems, CheckItems, Acceptance.Proper;
    var compiled := Compiler.Compile(program);
    if compiled.None? { return None; }
    var ch := compiled.value;
    var vm := new Vm(alu, ch, callee, g0);
    vm.Run(limit);
    r := Some(match vm.status
              case Going => Running(vm.ip, vm.stack, vm.globals)
              case Over => Halted(vm.stack, vm.globals)
              case Error => Faulted(vm.globals)
              case Undefined => Stuck);
    NeverStuck(alu, ch, program, callee, g0, limit);
    HeightTellsWide(alu, ch, program, callee, g0, limit);
    if r.value.Halted? { HaltsIffTerminates(alu, ch, program, callee, g0, r.value.globals); }
    if r.value.Faulted? { FaultsIffCrashes(alu, ch, program, callee, g0, r.value.globals); }
  }
}
