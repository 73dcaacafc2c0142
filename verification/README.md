# Dictu, verified

Dictu is a small scripting language written in C: a single-pass compiler to bytecode, a stack machine, a mark-sweep
collector, hash tables and interned strings, and libraries for big integers, hashing and text codecs. This project models
those cores in Dafny and proves what they are for.

- `compiler/` — The compiler of expressions and control flow emits into one growing chunk, with 16-bit jumps that are
  patched later, locals in stack slots, and `break` placeholders that a scan over the emitted bytes turns into jumps.
  `Semantics` gives the meaning of programs by evaluation, `Layout` says what code for a program looks like, `Compiler`
  is the emitting class, `Machine` the interpreter (a step function, and the dispatch loop over mutable fields). The main
  results: the compiler rejects exactly the programs that exceed its limits, and otherwise running its output to the end,
  to a runtime error, or for ever is what the program means, with the stack at the variables in scope on every exit;
  no accepted program makes the machine underflow the stack or leave the code. `Acceptance` says from the text alone which
  programs compile, `Constants` that no run of one stores to a constant, `Observations` what short programs come to for every
  literal in them.
- `closures/` — Name resolution across nested functions (pairs of "is a local of the enclosing function" and index), and
  the open upvalues of the machine. `Nesting` runs the nested compilers (functions and scopes begin and end, names are
  declared, defined, read and assigned); `Scopes` and `Access` tell from these events alone which declarations are in scope
  and which events are refused, and prove that the compilers agree. `Activations` runs the machine on what they compiled, with
  frames, and keeps for every closure whose slots its variables were. In every run, the upvalue that a name was resolved to
  stands for the slot of the last declaration of the name in scope, in the frame of the call of the declaring function that
  the closure was made in: it is read and written with that slot until the slot is closed, and keeps the last value
  afterwards. `Discarding` follows every path through functions of which only variables and temporary values count (scopes,
  loops, `break`, `continue`, initialisers, calls, returns): a variable is popped plainly only if no closure refers to its
  slot. `Emission` emits code for these functions and proves that running it does exactly what is on the path, `Processing`
  runs it on the machine with its open upvalues, and `Outcomes` writes the paths of small pieces of text out.
- `gc/` — Marking with a gray stack, weak removal from the intern table, sweeping a linked list. Exactly the reachable
  objects survive, in order and unmarked.
- `tables/` — Linear probing with tombstones. Both tables behave like plain maps over every run, probing ends, and strings
  that are kept alive are the same object exactly if they have the same contents.
- `bigint/` — Words, Karatsuba over one scratch array, shift-subtract division, binary gcd, modular power, reading and
  writing in any base. Everything is proved against integers.
- `hashing/` — Streaming SHA-256 and HMAC, against FIPS 180-4 and section 2 of RFC 2104; the digest of `abc` is worked out.
- `codecs/` — UTF-8 (section 3 of RFC 3629), subscripts and slices of strings by character, Base64 (section 4 of RFC 4648).

Eight things the proofs turned up, each stated exactly:

- A `case` label has a one-byte count of its further values, and the compiler does not check it. For every 256 values the
  count lost, 256 values stay on the stack and the machine compares the wrong ones (`Preservation.MultiRuns`). The meaning
  of a program says when it comes to such a label (`CaseLabels.LabelledMeans` for one), and `Interpreter.HeightTellsWide` proves that a machine that halts has
  an empty stack if and only if it came to none; then, and for every run up to that point, the run is what the program
  means. `CaseLabels.LabelledAccepted` and `CaseLabels.LabelledHalts` are programs that the compiler accepts and that
  leave 256 values, or any multiple, behind.
- Strings with a NUL byte whose bytes before it are valid UTF-8 lose what follows: `s[:k] + s[k:]` is then not `s`.
  `Strings.SlicesMakeTheString` proves that these strings are the only ones, `Strings.HiddenExample` is one.
- `bigint_pow_mod` with exponent zero gives one, also for modulus one, where every remainder is zero. `PowMod.PowMod` proves
  that the result is the remainder of the power if and only if it is not that case; `PowMod.ModuloOne` runs into it.
- Writing a number into a buffer that is too small keeps its last characters. `Radix.WriteBase` proves that the whole text
  is written if and only if it fits; `Radix.ShortBuffer` writes -12 and gets 12.
- Shifting a number to the right by so many bits that no word remains reads the word behind the number, which need not be
  zero. `BigInt.BigInt.ShiftRight` says what comes out, `Shifts.StrayIsRight` for which words it is right, and
  `BigInt.StrayRun` makes two shifts in place that turn 2 * 2^32 into 1 instead of 0.
- A constant is marked constant only when its initialiser ends, and an upvalue takes the mark over when it is made: inside
  its own initialiser a local constant can be assigned, as in `const f = def () => { f = 5; };`. `Nesting.ConstantsRefused`
  proves that an assignment of a captured name is refused if and only if its innermost declaration is of a constant whose
  initialiser has ended; `Nesting.AssignedInside` is an example.
- A module constant can be declared again, and has the new value from then on: `const a = 1; var a = 2;` compiles.
  `Constants.GlobalConstant` proves that it keeps its value as long as it is not, `Constants.DeclaredTwice` is the example;
  a local constant cannot be declared again in its scope, and keeps its value until that ends (`Constants.LocalConstant`).
- A closure that captures the variable in whose initialiser it stands captures the slot, and RETURN closes the slot that
  the callee was pushed to: after `var f = id(def () => f);` the `f` of the closure is another variable, with `id` in it.
  `Activations.Execution.InitialiserKeeps` proves that the captured variable is the one declared if and only if its slot
  was not closed between the capture and the end of the initialiser, and `Discarding.InitialiserCloses` that an initialiser
  closes it if and only if a call whose callee lies there returns. `Activations.InitialiserUnderCall` runs into it, in
  `Activations.InitialiserUnderAnd` a plain POP on the slot does no harm.

## Model

| member | source | states |
|---|---|---|
| Interpreter.Interpret | src/vm/vm.c:2453-2473 | Compiling fails exactly for programs beyond the limits; what compiles follows the rules on names, and what follows them compiles if its code has at most 65535 bytes. For every accepted program a run of any length is never stuck; if it halts with an empty stack the program terminates with the same globals, if it faults the program does, and the only exception is a run that came to a case label of more than 256 values, which a halted machine shows by the values it leaves |
| Interpreter.NeverStuck | src/vm/vm.c:876-2448 | No accepted program ever underflows the stack, reads past the code or jumps out of it, however long it runs and however wide its labels; when it halts, a multiple of 256 values is left |
| Interpreter.HeightTellsWide | src/vm/vm.c:1625-1643 | A machine that has halted has an empty stack if and only if the run came to no case label of more than 256 values |
| Interpreter.NarrowMeetsNone | src/vm/compiler.c:2489-2535 | Programs whose labels have at most 256 values never come to such a label |
| Interpreter.WideOverfills | src/vm/vm.c:1625-1643 | Otherwise the run agrees with the program up to the first such label, where a multiple of 256 values lies between the subject and the value compared with it |
| Preservation.ProgramRuns | src/vm/compiler.c:2969-3001 | For every amount of fuel the machine reaches what evaluating the program gives: the same globals, or the same runtime error, or it is still running, or at a case label of more than 256 values with the surplus on the stack |
| Interpreter.HaltsIffTerminates | src/vm/vm.c:2262-2285 | For every accepted program: the machine halts with an empty stack and certain globals if and only if the program terminates with them |
| Interpreter.FaultsIffCrashes | src/vm/vm.c:58-89 | A program that fails with a runtime error makes the machine fail with the same globals; and conversely, unless the run came to a case label of more than 256 values |
| Preservation.StmtRuns | src/vm/compiler.c:2901-2967 | Code of a statement leaves the same variables and globals; on the normal exit, on break and on continue the stack holds exactly the variables then in scope and the machine is at the right place |
| Preservation.BlockRuns | src/vm/compiler.c:257-271 | Leaving a block, also by break or continue, drops exactly its variables |
| Preservation.WhileRuns | src/vm/compiler.c:2748-2774 | The loop runs until its condition is falsey or the body breaks, for every number of rounds |
| Preservation.ForRuns | src/vm/compiler.c:2343-2415 | Test, body and step take turns through the two backward jumps; continue goes to the step |
| Preservation.SwitchRuns | src/vm/compiler.c:2489-2535 | The first case one of whose values equals the subject is executed, else the default, and the subject is gone afterwards; for labels of every size |
| Preservation.IfRuns | src/vm/compiler.c:2466-2487 | One of the two ways is executed, the condition is popped on both |
| Preservation.MultiRuns | src/vm/vm.c:1625-1643 | What lies on the stack after MULTI_CASE, for every number of values: those the count byte lost stay, and of the others one is picked by comparing with the value below them |
| CaseLabels.OneLabelRuns | src/vm/compiler.c:2489-2535 | A switch with one label, whatever its size, ends with 256 values too many for every 256 further values |
| CaseLabels.LabelledAccepted | src/vm/compiler.c:2489-2535 | The compiler accepts a switch whose label has any number of values |
| CaseLabels.LabelledHalts | src/vm/vm.c:1625-1643 | That program halts with 256 values left over for every 256 further values: with an empty stack if and only if the label has at most 256 |
| CaseLabels.LabelledMeans | src/vm/compiler.c:2489-2535 | That program terminates with its globals unchanged if the label has at most 256 values, and comes to a label that is too wide otherwise |
| StackHeight.ProgramStands | src/vm/vm.c:876-2448 | Code of a program, entered with a multiple of 256 values too many, is safe for any number of steps and halts with at least as many |
| WideRuns.ProgramStrays | src/vm/vm.c:1625-1643 | Once a run came to a label that is too wide, no later instruction removes the surplus |
| ExprPreservation.ExprRuns | src/vm/compiler.c:581-648 | Code of an expression pushes its value on whatever lies on the stack, with the same assignments and the same runtime errors |
| ExprPreservation.ShortCircuitRuns | src/vm/compiler.c:1008-1034 | `and` and `or` evaluate their second operand exactly if the first does not decide |
| ExprPreservation.TernaryRuns | src/vm/compiler.c:650-671 | Exactly one of the two alternatives is evaluated |
| Machine.Vm.Run | src/vm/vm.c:2449-2451 | The dispatch loop over mutable fields does as many steps of the step function as it is given |
| Machine.Vm.Dispatch | src/vm/vm.c:988-1078 | Decoding and executing one instruction in place is one step |
| Machine.Vm.MultiCaseValues | src/vm/vm.c:1625-1643 | Of the case values the uppermost equal to the subject is left, or else the lowest |
| Machine.StepsAdd | src/vm/vm.c:876-2448 | Runs of the machine compose |
| Compiler.Compile | src/vm/compiler.c:2969-3001 | Emits code laid out for the program, or fails exactly if a limit is exceeded; a program that assigns a constant, declares a name twice in a scope, uses a variable in its own initialiser, or has a stray `break` never compiles, and any other does if it is small |
| Acceptance.AcceptedIff | src/vm/compiler.c:2969-3001 | The checks of the compiler are passed only by programs that follow the rules on names and `break`, told by the text alone, and by all of those with at most 65535 bytes of code |
| Acceptance.StmtProper | src/vm/compiler.c:2901-2967 | A statement that compiles assigns no constant that is innermost of its name there, declares nothing twice in one scope and nothing in its own initialiser, and takes no more constants than its literals and globals |
| Acceptance.StmtAccepted | src/vm/compiler.c:2901-2967 | Conversely it compiles, as long as there is room for its literals, globals and jumps |
| Constants.NeverStored | src/vm/compiler.c:1238-1255 | No run of an accepted program, however long, stores to what a constant declaration made |
| Constants.StmtKeeps | src/vm/compiler.c:1238-1255 | On every exit, what a statement did not store to has the value it had |
| Constants.LocalConstant | src/vm/compiler.c:444-456 | A local constant has the value it was declared with until its block is left, however that happens |
| Constants.GlobalConstant | src/vm/compiler.c:444-456 | A global constant keeps its value for the rest of the program, unless it is declared again there |
| Constants.DeclaredTwice | src/vm/compiler.c:411-456 | `const a = v; var a = w;` compiles, and `a` is `w` afterwards |
| Observations.ConditionsAre | src/vm/vm.c:823-832 | `if`, `while`, `and`, `or`, `!` and the ternary take the falsey way for nil, false, both zeros, the empty string and strings that begin with NUL, and for no other value |
| Observations.IfHalts | src/vm/vm.c:1656-1660 | The machine halts after `var a = first; if (v) { a = second; }` with the one or the other for exactly these values |
| Observations.OperatorHalts | src/vm/compiler.c:581-648 | The machine halts with the result of an operator on two literals, `>=` and `<=` by the negated opposite, or fails if it has none |
| Observations.InnerIs | src/vm/compiler.c:300-313 | Reading a name reads its innermost variable |
| Observations.OuterIs | src/vm/compiler.c:257-271 | Assigning in an inner scope that declares the name leaves the outer variable as it was |
| Observations.SwitchIs | src/vm/compiler.c:2489-2535 | A switch over literals executes the body of the first label with the value, else the default, and nothing else |
| Observations.ForIs | src/vm/compiler.c:2343-2415 | `break` leaves out the step of a `for` and ends it; `continue` goes on with the step |
| Compiler.Compiler.Statement | src/vm/compiler.c:2901-2967 | Appends code for the statement, keeps what was emitted before, restores locals, depth and loops; fails exactly if the limits say so |
| Compiler.Compiler.Expression | src/vm/compiler.c:1556-1588 | Appends code for the expression; fails exactly if the limits say so |
| Compiler.Compiler.AndExpr | src/vm/compiler.c:486-505 | The jump over the second operand is aimed behind it |
| Compiler.Compiler.OrExpr | src/vm/compiler.c:1008-1034 | The two jumps are aimed at the second operand and behind it |
| Compiler.Compiler.TernaryExpr | src/vm/compiler.c:650-671 | Both jumps are aimed, both ways pop the condition |
| Compiler.Compiler.IfStatement | src/vm/compiler.c:2466-2487 | Lays out both ways, or fails exactly if a jump is too far |
| Compiler.Compiler.WhileStatement | src/vm/compiler.c:2748-2774 | Lays out the loop with all its breaks patched |
| Compiler.Compiler.ForStatement | src/vm/compiler.c:2343-2415 | Lays out the loop in a scope of its own, with step before body |
| Compiler.Compiler.SwitchStatement | src/vm/compiler.c:2489-2535 | Lays out the cases with their jumps to the end |
| Compiler.Compiler.BreakStatement | src/vm/compiler.c:2417-2440 | Pops the variables of the loop body and leaves a placeholder; an error outside a loop |
| Compiler.Compiler.ContinueStatement | src/vm/compiler.c:2442-2464 | Pops the variables of the loop body and jumps back |
| Compiler.Compiler.EndLoop | src/vm/compiler.c:2323-2341 | Turns every placeholder of this loop, and nothing else, into a jump to the byte after the loop |
| Compiler.Compiler.EmitLoop | src/vm/compiler.c:98-109 | A backward jump to the start, or an error exactly if it is too far |
| Compiler.Compiler.PatchJump | src/vm/compiler.c:146-156 | Aims an emitted jump at the end of the code, or an error exactly if it is too far |
| Compiler.Compiler.EndScope | src/vm/compiler.c:257-271 | Removes exactly the locals of the scope and emits one pop for each |
| Compiler.Compiler.LocalDeclaration | src/vm/compiler.c:2148-2194 | The initialiser is compiled with the new name not yet readable; redeclaring in one scope is an error |
| Compiler.Compiler.Assignment | src/vm/compiler.c:1238-1328 | Stores to the innermost local or to a module variable; an error for a constant |
| Compiler.Compiler.MakeConstant | src/vm/compiler.c:129-137 | Adds to the constants, or an error exactly if a byte cannot count them |
| Compiler.Compiler.ResolveLocal | src/vm/compiler.c:300-313 | Finds the innermost local; reading one in its own initialiser is an error |
| Limits.InitialiserBlind | src/vm/compiler.c:300-313 | An initialiser that compiles does not refer to the variable it initialises |
| Patching.ScanPatches | src/vm/compiler.c:2216-2341 | Over well-formed code the scan stays on instruction boundaries and patches every placeholder and nothing else |
| Patching.CarryStmt | src/vm/compiler.c:2323-2341 | Code of a statement in a loop stays code of that statement when the loop is closed, with its breaks now leading to the exit and inner loops unchanged |
| Resolution.ResolveMeans | src/vm/compiler.c:365-392 | A name resolves to an upvalue if and only if an enclosing function declares it, and the chain of pairs leads to the innermost declaration |
| Resolution.ResolveFails | src/vm/compiler.c:335-363 | Resolving fails exactly if a function on the way needs a new upvalue and has no room |
| Resolution.MeaningStable | src/vm/compiler.c:335-363 | What an upvalue stands for never changes, whatever locals are declared and dropped and whatever else is captured afterwards |
| Resolution.MeaningInjective | src/vm/compiler.c:335-363 | A function has at most one upvalue for a variable |
| Resolution.MeaningLevel | src/vm/compiler.c:365-392 | A pair is marked local exactly if the variable is of the directly enclosing function, and every captured slot is marked as captured |
| Resolution.FlagMeans | src/vm/compiler.c:335-392 | In states with the right flags, which all states of a run are (`Nesting.RunFlags`), an upvalue is flagged constant if and only if the local it stands for is at that time |
| FunctionCompiler.FnCompiler.ResolveUpvalue | src/vm/compiler.c:365-392 | The recursion over linked compilers, updating their upvalue lists, is the resolution function |
| FunctionCompiler.FnCompiler.AddUpvalue | src/vm/compiler.c:335-363 | Reuses the pair with the same index and kind or appends one with its constant flag, or fails when full |
| FunctionCompiler.FnCompiler.AddLocal | src/vm/compiler.c:394-428 | Declares a local that is neither defined nor constant, or fails when the scope has one of that name or there are too many |
| FunctionCompiler.FnCompiler.BeginScope | src/vm/compiler.c:253-255 | One more scope is open |
| FunctionCompiler.FnCompiler.EndScope | src/vm/compiler.c:257-271 | Removes the locals at the end that are deeper than the scope around, one after the other |
| FunctionCompiler.FnCompiler.DefineVariable | src/vm/compiler.c:444-458 | Ends the initialiser: only now is the local defined, and constant if it was declared so |
| FunctionCompiler.FnCompiler.AssignName | src/vm/compiler.c:1238-1280 | Resolves the name and refuses exactly what is flagged constant by then, local or captured, and a local in its own initialiser |
| FunctionCompiler.Perform | src/vm/compiler.c:1257-1280 | Each event on the linked compilers is one step of the run |
| FunctionCompiler.CompileAll | src/vm/compiler.c:223-392 | Performs all events if and only if there is a run of them, and then exactly that run; none of them is then one that the events before it forbid, and otherwise it stops at one that they forbid or that needs an upvalue too many |
| Scopes.RunDepth | src/vm/compiler.c:253-271 | The scopes open in all compilers together are those that the events have opened and not ended |
| Scopes.RunPlaced | src/vm/compiler.c:257-271 | In every state of a run the locals of each function, but for slot zero, are the declarations whose scope has not ended, in their order, with their names and keywords, and defined if and only if their initialiser has ended |
| Scopes.LexicalByEvents | src/vm/compiler.c:300-313 | The innermost declaration of a name in the compilers is the last declaration event of it whose scope has not ended, or there is none |
| Access.RefusedIff | src/vm/compiler.c:394-456 | In every run an event is refused if and only if the events before it say so (an unfinished initialiser, no or too many variables, the name already declared in the same scope, a scope that does not end here, a variable read in its initialiser, a constant assigned) or it needs an upvalue too many |
| Access.RedeclaredIs | src/vm/compiler.c:411-428 | The scan for the name in the current scope finds it if and only if a declaration event of it stands in the same scope |
| Access.PlaceIs | src/vm/compiler.c:394-408 | The level of a local is the number of functions open around its declaration, its slot one more than the number of declarations in scope there before it |
| Access.AccessByEvents | src/vm/compiler.c:365-392 | Over every whole run: a name of an enclosing function that is read or assigned is, in every closure of the function it stands in, the variable of its last declaration in scope, at the place that the events say; if there is none it is no upvalue |
| Nesting.AccessInRun | src/vm/compiler.c:365-392 | Over every whole run of the nested compilers: a name read or assigned anywhere in it, not a local there, was resolved to an upvalue that in every closure of that function is, among the closure's variables, the one of the lexically innermost declaration, or no enclosing function declares it |
| Nesting.ConstantsRefused | src/vm/compiler.c:1238-1255 | At every point of a run, assigning a name of an enclosing function is refused if and only if its innermost declaration is of a constant whose initialiser has ended |
| Nesting.UndefinedIsInitialising | src/vm/compiler.c:444-458 | At every point of a run, a local that is not defined was declared by an event after which its function has not come to the end of the initialiser |
| Nesting.InitialisingIsUndefined | src/vm/compiler.c:396-408 | Until that end, whatever is compiled inside, the local is the last one of its function, not defined, with the name and the keyword of its declaration |
| Nesting.AssignedInside | src/vm/compiler.c:2148-2194 | Assigning a constant in a function inside its own initialiser compiles; in a function after it the same assignment is refused |
| Nesting.RunKeeps | src/vm/compiler.c:335-392 | As long as a function is being compiled its upvalues, and those of all around it, only grow, and their locals keep their names |
| Nesting.RunWellFormed | src/vm/compiler.c:335-392 | In every state of a run all pairs lead outwards to locals that exist and are marked, and no function has one twice |
| Nesting.ParentFaithful | src/vm/compiler.c:223-255 | A closure of the enclosing function, made when that was finished, already has what the pairs of the finished inner function ask for |
| Nesting.UnmarkedNotCaptured | src/vm/compiler.c:257-271 | A local that is not marked when it is discarded was captured by no function compiled since it was declared |
| Discarding.DiscardSafe | src/vm/compiler.c:257-271 | At the end of a scope, and at break and continue, each local is closed or popped as marked; no popped slot is open, as long as what is open is marked |
| Discarding.ExprSafe | src/vm/compiler.c:486-505 | An expression leaves one more value, whatever its conditions come to, what it calls and what closures it makes, also in the initialiser of a variable that it captures; nothing is open afterwards that the text has not marked |
| Discarding.InitialiserCloses | src/vm/vm.c:2262-2285 | On every path through an initialiser the slot of the variable is closed if and only if a call whose callee was pushed there returns, which takes a call in the place that is evaluated first; nothing below is closed |
| Discarding.StmtSafe | src/vm/compiler.c:2417-2464 | On every path through a statement with its calls and loops, no variable is popped plainly from an open slot, and what is open is marked at that place of the text; on break and continue only variables outside the loop are left |
| Discarding.RoundsSafe | src/vm/compiler.c:2748-2774 | Running the text again keeps that, although what the first round captured outside the loop is open before the text captures it |
| Discarding.CallSafe | src/vm/vm.c:2262-2285 | A call leaves one value, on which nothing is open, and the open slots of all frames below as they were; what is called may lie in a slot that is open |
| Discarding.ProgramSafe | src/vm/compiler.c:2427-2460 | For every program and every outcome of its conditions: no plain POP of a variable finds an upvalue open on the slot, at the end nothing is open, and the path is cut only when there are no outcomes left |
| Discarding.Execute | src/vm/vm.c:2256-2285 | The machine does each thing on a path: its height and its open slots become what the path says, what is taken off the stack changes the value of no upvalue, and no upvalue points to a variable that is popped plainly; a slot becomes another variable only where the path closes it |
| Discarding.ClosureOpens | src/vm/vm.c:2231-2254 | After a closure the stack is one higher and exactly the slots that it captures are open besides those that were |
| Discarding.AfterExact | src/vm/compiler.c:335-392 | After a statement a variable outside of it is marked if and only if it was before, or a closure in the text of the statement captures it |
| Discarding.ItemExact | src/vm/compiler.c:394-408 | A new variable is marked by its own initialiser only |
| Discarding.DiscardsAre | src/vm/compiler.c:257-271 | A discard is one thing for each variable, uppermost first: closed if it is marked, popped plainly if not |
| Emission.ExprRuns | src/vm/compiler.c:486-505 | The code of an expression, run at any place of a function, does what is on the path of the expression and goes on behind it |
| Emission.StmtRuns | src/vm/compiler.c:2417-2487 | The code of a statement does what is on its path, and the machine is then behind it, or where `break` and `continue` go, or back in the calling function, as the path says |
| Emission.LoopRuns | src/vm/compiler.c:2343-2415 | The test, the body, the step and the jumps between them are run for as many rounds as the path has |
| Emission.CallRuns | src/vm/vm.c:2262-2285 | The code of a function, from its beginning until it returns, does what is on the path of the call |
| Emission.ProgramRuns | src/vm/vm.c:2231-2285 | For every program and every outcome of its conditions the machine runs the emitted code to the end, or until it wants an outcome, and has then done exactly what is on the path |
| Processing.Processor.Dispatch | src/vm/vm.c:2231-2285 | Executing one instruction on the stack, the frames and the open upvalues is one step; making a closure opens exactly the slots that it captures |
| Processing.Processor.Make | src/vm/vm.c:2231-2254 | The closure is pushed and then captures, and exactly its slots are open besides those that were |
| Processing.RunProgram | src/vm/compiler.c:2427-2460 | The emitted code of every program is run on the machine, for every outcome of its conditions: what it does is the path, its height and its open slots are those of the path, and at the end there is one value and nothing open |
| Outcomes.IfTakes | src/vm/compiler.c:2466-2487 | One of the two ways is on the path, the first if the condition holds |
| Outcomes.EitherTakes | src/vm/compiler.c:1008-1034 | The second operand is on the path if and only if the first does not decide, for `and` and for `or` |
| Outcomes.BothTake | src/vm/compiler.c:581-648 | Operands and arguments are evaluated from left to right |
| Outcomes.CallTakes | src/vm/vm.c:2262-2285 | The function that is called is on the path, with its slots from the callee on |
| Outcomes.ReturnTakes | src/vm/vm.c:2262-2285 | Nothing of the function follows its result |
| Outcomes.BlockTakes | src/vm/compiler.c:257-271 | At the end of a block its variable is closed if a closure there has captured it, and popped if not |
| Outcomes.LoopTakes | src/vm/compiler.c:2343-2415 | As often as the test holds the body is on the path, and the step after it |
| Outcomes.LeavesTake | src/vm/compiler.c:2417-2464 | `break` leaves out the step and the rounds that follow, `continue` does not |
| Outcomes.CaptureExample | src/vm/vm.c:2231-2254 | The whole path of a function that declares a variable and makes a closure of it: the slot is captured |
| Activations.Execution.Reaches | src/vm/vm.c:1111-1121 | In every run of the machine, and for every name that is read or assigned in a closure and not declared in its function: it is an upvalue if and only if a declaration of it is in scope, and that stands for the slot of the last one, in the frame of the call of the function it stands in that the closure was made in; as long as the slot has not been closed since, it is open there and reads what the slot holds |
| Activations.Execution.SharedIffUntouched | src/vm/vm.c:728-762 | Two closures that captured the same slot share the upvalue if and only if the slot was not closed between the captures |
| Activations.Execution.InitialiserKeeps | src/vm/vm.c:2231-2285 | What a closure captured in the initialiser of a variable is that variable if and only if the slot was not closed before the initialiser ended |
| Activations.InitialiserUnderCall | src/vm/vm.c:2262-2285 | A closure captures the slot of the variable below which its callee lies, and the call returns: the closure reads the callee, and the variable is another one |
| Activations.InitialiserUnderAnd | src/vm/compiler.c:486-505 | The closure is popped by `and` while its own slot is captured: it reads what comes to lie there |
| Activations.SourceIs | src/vm/vm.c:2231-2254 | Each variable of a closure is what that slot of the activation it stems from was when it was looked up |
| Activations.SourceEntry | src/vm/vm.c:2231-2254 | That activation is a call of the function that encloses the closure's function by so many levels |
| Activations.RecordedMore | src/vm/vm.c:764-777 | At every later time a slot is still the variable it was if and only if it was not closed in between |
| Activations.Execution.Make | src/vm/vm.c:2231-2254 | A new closure has the variables of the running closure and those of the slots of the running frame, and its upvalues are the slots and upvalues that the pairs name |
| Activations.Execution.Perform | src/vm/vm.c:2231-2285 | Over every sequence of actions of the machine closures and their variables stay what they are, and a slot is closed only by CLOSE_UPVALUE of it and by RETURN from a frame that begins there or below |
| Activations.Execution.SetLocal | src/vm/vm.c:1037-1041 | Assigning a local of the running frame is seen by exactly the closures that captured this slot since it was last closed |
| Activations.Execution.SetUpvalue | src/vm/vm.c:1111-1121 | Assigning through an upvalue of the running closure writes the slot of its variable, if it has one, and no other |
| Activations.Execution.Return | src/vm/vm.c:2262-2285 | The frame is closed from its first slot on, where the result is pushed; no upvalue reads a different value |
| Upvalues.AccessIsLexical | src/vm/vm.c:1111-1121 | The upvalue a name was resolved to holds the variable of the innermost declaration, in closures made from any later state of the compilers |
| Upvalues.FaithfulEarlier | src/vm/compiler.c:335-363 | A closure right for a later state of the compilers is right for every earlier one |
| Upvalues.Vm.MakeClosure | src/vm/vm.c:2231-2254 | A closure has its parent's variables and those of the slots of the running frame; each of its upvalues stands for the one that its pair means, its own slot included, and only what is open on the slot it is pushed to reads a different value |
| Upvalues.SelfCapture | src/vm/vm.c:2231-2254 | A closure that captured the slot it was pushed to reads itself |
| Upvalues.SameCellSameUpvalue | src/vm/vm.c:728-762 | Closures that captured the same variable share one upvalue |
| Upvalues.Vm.CaptureUpvalue | src/vm/vm.c:728-762 | Gives the one open upvalue of a slot; the list stays strictly descending |
| Upvalues.Vm.CloseUpvalues | src/vm/vm.c:764-777 | Closes exactly those at or above the cut; no upvalue reads a different value afterwards |
| Upvalues.Vm.Return | src/vm/vm.c:2262-2285 | Dropping a frame changes the value of no upvalue |
| Upvalues.Vm.SetUpvalue | src/vm/vm.c:1111-1121 | An assignment is seen through this upvalue and its variable only, on the stack or not |
| Upvalues.Vm.SetLocal | src/vm/vm.c:1037-1041 | Assigning a local is seen through the upvalue of that variable and through no other |
| Collector.Vm.CollectGarbage | src/vm/memory.c:316-393 | Exactly the objects reachable from the roots survive, in list order and unmarked; intern entries of freed strings are gone, others stay. Whatever stands in a field of a survivor or in a root is left, field by field, and what is left stands in one |
| Graph.EdgesAreFields | src/vm/memory.c:77-188 | What the collector follows from an object is what stands in its fields, sequences and tables, for every kind of object |
| Collector.Vm.RootsAreFields | src/vm/memory.c:316-356 | The roots are what stands on the stack, in frames, open upvalues, tables, compilers and special fields |
| Collector.Vm.Trace | src/vm/memory.c:358-363 | The gray loop ends with exactly the reachable objects marked |
| Collector.Vm.BlackenObject | src/vm/memory.c:77-188 | Marks and pushes exactly the unmarked objects the object refers to |
| Collector.Vm.Sweep | src/vm/memory.c:368-383 | Unlinks the unmarked objects in place and unmarks the others |
| Collector.TricolorStep | src/vm/memory.c:77-188 | Blackening keeps the invariant: marked objects that are not gray refer to marked objects only |
| Collector.DarkIffReachable | src/vm/memory.c:358-363 | With no gray object left, marked means reachable |
| Graph.ClosedContains | src/vm/memory.c:40-64 | A set that holds the roots and is closed under references holds every reachable object |
| HashTables.Replay | src/vm/value.c:76-176 | Over every sequence of get, set and delete, with growing and shrinking and any hash function, the dictionary answers like a plain map |
| HashTables.ReplayOnTable | src/vm/table.c:22-109 | The same of the string table, which only grows |
| HashTables.Table.Set | src/vm/table.c:81-95 | The map is updated, and says whether the key is new |
| HashTables.Table.Delete | src/vm/table.c:97-109 | The key is gone and all others stay findable |
| HashTables.Dict.Set | src/vm/value.c:137-156 | The map is updated, the count of live keys follows, the load stays at most three quarters |
| HashTables.Dict.Delete | src/vm/value.c:158-176 | The key is gone, the capacity may halve, the load bound stays |
| HashTables.Dict.ActiveCountIsSize | src/vm/value.c:137-176 | The count of live keys is the size of the map |
| Probing.FindEntry | src/vm/table.c:22-45 | Probing ends and finds the slot of the key, or one where it can be put, preferring a tombstone |
| Probing.PutKeeps | src/vm/table.c:81-95 | Storing in the slot that was found keeps every key findable |
| Probing.RemoveKeeps | src/vm/table.c:97-109 | A tombstone keeps every other key findable |
| Probing.Rehash | src/vm/table.c:57-79 | Resizing keeps the map and drops the tombstones |
| Probing.LiveIsSize | src/vm/value.c:113-135 | The number of live slots is the size of the map they hold |
| Interning.Run | src/vm/object.c:244-305 | Over every run of making strings and collecting, two strings lie at one address exactly if they have equal contents, as long as the earlier one is kept alive |
| Interning.Strings.FindString | src/vm/table.c:121-144 | Finds a string by its contents whenever one is in the table |
| Interning.Strings.CopyString | src/vm/object.c:283-293 | Returns the string there is, or a new one that is entered |
| Interning.Strings.RemoveWhite | src/vm/table.c:146-153 | Exactly the strings that were reached stay |
| Words.MulHi | src/optionals/bigint/bigint.c:11-24 | High and low word together are the product; no intermediate sum overflows |
| Words.NormalUnique | src/optionals/bigint/bigint.c:218-221 | Truncated words of equal value are equal words |
| Karatsuba.Multiply | src/optionals/bigint/bigint.c:411-471 | The exact product; the recursion ends, and scratch is used within 11 * max(na, nb) + 180 words only |
| BigInt.BigInt.Mul | src/optionals/bigint/bigint.c:473-501 | The exact product, by either method, also if the result is an operand |
| BigInt.BigInt.AddSigned | src/optionals/bigint/bigint.c:617-679 | The exact signed sum, also if the result is an operand |
| BigInt.BigInt.ShiftLeft | src/optionals/bigint/bigint.c:715-764 | Multiplication by a power of two, also in place |
| BigInt.BigInt.ShiftRight | src/optionals/bigint/bigint.c:766-814 | Division by a power of two, also in place, if a word remains or whole words are dropped; otherwise the word behind the number, shifted; the words behind the result stay |
| Shifts.StrayIsRight | src/optionals/bigint/bigint.c:766-801 | When no word remains, the result is right if and only if the word behind the number is below the power of two of the bits |
| BigInt.StrayRun | src/optionals/bigint/bigint.c:766-814 | The number 2 * 2^32 shifted in place by 32 and then by 33 gives 1, and not 0, its quotient by 2^65 |
| BigInt.BigInt.DivModHalfWord | src/optionals/bigint/bigint.c:933-968 | Exact quotient in place and remainder |
| BitLevel.TrailingZeros | src/optionals/bigint/bigint.c:826-833 | The place of the lowest set bit |
| BitLevel.BitLength | src/optionals/bigint/bigint.c:816-824 | The number of significant bits |
| Raw.Sub | src/optionals/bigint/bigint.c:387-409 | The exact difference, normalised, in place of either operand |
| Raw.MulAdd | src/optionals/bigint/bigint.c:301-318 | The exact product by the school method |
| Raw.CompareAbs | src/optionals/bigint/bigint.c:143-157 | The sign of the difference of the values |
| Division.DivMod | src/optionals/bigint/bigint.c:835-903 | For every nonzero denominator and on all three paths n = q * d + r with r below d in magnitude, the quotient rounded to zero and the remainder signed like n; zero denominators are refused; a result may be the numerator, and on the paths that allow it the denominator |
| Division.DivideStep | src/optionals/bigint/bigint.c:835-903 | Deciding one bit keeps what is divided and what remains |
| Gcd.BigGcd | src/optionals/bigint/bigint.c:970-1007 | The greatest common divisor of the magnitudes, on the word path and the binary path, also of zeros |
| Gcd.WordGcd | src/optionals/bigint/bigint.c:100-107 | The greatest common divisor of two words |
| Gcd.GcdIsGreatest | src/optionals/bigint/bigint.c:970-1007 | What is called gcd is divisible by every common divisor |
| Gcd.GcdIsUnique | src/optionals/bigint/bigint.c:970-1007 | There is only one |
| Gcd.GcdShift | src/optionals/bigint/bigint.c:994-1000 | Shifting zeros out of one number keeps the gcd while the other is odd |
| PowMod.PowMod | src/optionals/bigint/bigint.c:1143-1182 | The power modulo the modulus, with the sign of the power; one for exponent zero; the remainder of the power if and only if the exponent is not zero or the modulus is not one; fails exactly for modulus zero; the result may be any operand |
| PowMod.ModuloOne | src/optionals/bigint/bigint.c:1143-1182 | With exponent zero and modulus one the result is one, and the remainder of the power is zero |
| PowMod.PowerStep | src/optionals/bigint/bigint.c:1162-1169 | Each round keeps dst * base^exponent congruent to the target |
| Radix.RoundTrip | src/optionals/bigint/bigint.c:1056-1093 | Reading what was written gives back sign and magnitude, in every base from 2 to 36, also for a negative zero |
| Radix.WriteBase | src/optionals/bigint/bigint.c:1056-1093 | Writes sign, digits and NUL, or as many of the last characters as the buffer holds: the whole text if and only if it fits |
| Radix.ShortBuffer | src/optionals/bigint/bigint.c:1056-1093 | Two characters of room for -12 give 12 |
| Radix.FromStrBase | src/optionals/bigint/bigint.c:514-527 | The value of the digits by Horner's rule, skipping other characters, negative for a leading minus |
| Radix.ParsedBound | src/optionals/bigint/bigint.c:503-527 | Digits above the base need less than one more word |
| Radix.CapitalsParse | src/optionals/bigint/bigint.c:48-68 | A number can be written in capitals as well |
| Radix.Hexadecimal | src/optionals/bigint/bigint.c:514-527 | FF and ff are 255 in base 16 |
| Sha256.Hasher.Update | src/optionals/hashlib/sha256.c:65-85 | Any split of a message into updates absorbs the message |
| Sha256.Hasher.Final | src/optionals/hashlib/sha256.c:87-136 | The digest of FIPS 180-4, and the state is wiped |
| Sha256.CompressInto | src/optionals/hashlib/sha256.c:181-217 | The circular window of 16 words computes the same 64 rounds as the schedule of 64 words |
| Sha256.NextWord | src/optionals/hashlib/sha256.c:203-209 | The word written over the oldest one is the next word of the schedule |
| Sha256.PadOnce | src/optionals/hashlib/sha256.c:97-121 | With room for the length one padded block ends the message |
| Sha256.PadTwice | src/optionals/hashlib/sha256.c:97-121 | Without room two do |
| KnownDigest.DigestOfAbc | src/optionals/hashlib/sha256.c:181-217 | The digest of `abc` is the one that FIPS 180-4 gives, worked out with all constants and rotations |
| Hmac.PadsAlone | src/optionals/hashlib/hmac.c:37-50 | Under a key of zeros the two hashes begin with a block of the character 6 and a block of backslashes |
| Hmac.Mac.Final | src/optionals/hashlib/hmac.c:124-147 | H((K xor opad) followed by H((K xor ipad) followed by the text)), for any chunks of text; key and state are wiped |
| Hmac.Mac.SetKey | src/optionals/hashlib/hmac.c:52-93 | Refuses exactly the empty key; short, exact and longer keys all give the schedule of RFC 2104 |
| Hmac.Rekey | src/optionals/hashlib/hmac.c:37-50 | Both pads of the key, also when the key lies in the array that is written |
| Utf8.OrderKept | src/vm/utf8.h:1260-1302 | Encodings are in the order of their code points, byte by byte |
| Utf8.WellFormedIffEncoded | src/vm/utf8.h:1038-1139 | The texts the validator accepts are exactly the encodings of code points below 2^21 |
| Utf8.NValid | src/vm/utf8.h:1042-1139 | Accepts exactly well-formed text up to NUL or the limit, and never reads behind the NUL |
| Utf8.EncodeDecodeAll | src/vm/utf8.h:1206-1302 | Decoding and appending every code point reproduces the bytes |
| Utf8.DecodeEncodeAll | src/vm/utf8.h:1206-1302 | Encoding and decoding reproduces the code points |
| Utf8.NLen | src/vm/utf8.h:541-569 | The number of steps from lead byte to lead byte that end within the limit, on any bytes; in well-formed text the number of code points |
| Utf8.WalkIsWithin | src/vm/utf8.h:541-569 | In well-formed text those steps are the code points, and none leads behind the NUL |
| Utf8.WithinAll | src/vm/utf8.h:537-539 | Without a limit this is the number of decoded code points |
| Utf8.CatCodePoint | src/vm/utf8.h:1260-1302 | Appends the encoding if and only if there is room |
| Strings.Subscript | src/vm/vm.c:1907-1936 | The character at an index from either end, or an error exactly if there is none |
| Strings.Slice | src/vm/vm.c:2124-2159 | The characters between the clipped bounds |
| Strings.SlicesMakeTheString | src/vm/vm.c:2124-2159 | s[:k] followed by s[k:] is s, for every k, if and only if the string hides no bytes behind a NUL |
| Strings.HiddenExample | src/vm/vm.c:2124-2159 | The string of one NUL: both its halves are empty |
| Strings.SlicedIs | src/vm/vm.c:2124-2159 | What slices with bounds from either end, missing bounds and bounds outside of the string are |
| Strings.UnitsConcat | src/vm/vm.c:1907-1936 | All characters together are the string, if and only if it hides no bytes |
| Base64.RoundTrip | src/optionals/base64/base64Lib.c:56-111 | Decoding an encoding gives back every byte string |
| Base64.Encode | src/optionals/base64/base64Lib.c:56-87 | Groups of RFC 4648 with padding and a NUL, within the computed size |
| Base64.Decode | src/optionals/base64/base64Lib.c:89-111 | Decodes any text and never writes past the computed size |
| Base64.AlphabetIs | src/optionals/base64/base64Lib.c:14-38 | The characters for 0 to 63 are those of table 1 of RFC 4648, and are read as these numbers |
| Base64.Examples | src/optionals/base64/base64Lib.c:56-87 | The encodings of "", "f", "fo" and "foo" that RFC 4648 gives |
| Base64.EncodedSize | src/optionals/base64/base64Lib.c:40-49 | Exactly the length of the encoding |

## Left out

- BigInt.BigInt.ShiftRight: the word that is read must lie in the array; with no word allocated the code reads and writes outside of it.
- Division.DivMod: a result may be the denominator only where the code has read it by then (both numbers of one word, or a remainder with a denominator of half a word); on the other paths it goes on with an overwritten number.
- Utf8.NLen: going from lead byte to lead byte must stay in memory, as the code does not look for the NUL inside a code point.
- Radix.FromStrBase: the number of words comes from floating-point logarithms in the code; here it is a parameter that must be the rounded-up quotient of logarithms plus one.
- Interning.Strings.CopyString: covers `takeString` as well, except that the latter frees or keeps the buffer it is given.
- Upvalues.Vm.MakeClosure: the closure is made for a function already compiled; loading the function from the constants is not modelled.
- Nesting.UnmarkedNotCaptured: speaks of the order of the text; that no path passes a capture before an earlier pop is `Discarding.ProgramSafe`.
- Processing.RunProgram: functions are reduced to what pushes, captures and discards values; what the values are and names are treated in the other modules, jumps count instructions and not bytes, and one theorem about all of it together is not part of this model. A loop without a step has a constant there.
- Nesting.AccessInRun: the events of compiling leave out code and control flow; module variables are treated in `compiler/`.
- Compiler.Compile: programs have no calls, collections, classes, imports or `return`.
- Compiler.Compiler.Statement: no `return`, `with`, import or destructuring of lists.
- Compiler.Compiler.Expression: no calls, subscripts or collections.
- Compiler.Compiler.NamedVariable: names of native globals are not distinguished; the original compiles them to GET_GLOBAL and they cannot be assigned (src/vm/compiler.c:1268-1275). Here every name that is no local is a module variable.
- Compiler.Compiler.Assignment: compound assignment is left out; upvalues are treated in `closures/`.
- Compiler.Compiler.LocalDeclaration: no destructuring of lists.
- Compiler.Compiler.EndScope: functions of the control-flow compiler capture nothing, so CLOSE_UPVALUE is not emitted.
- Compiler.Compiler.BreakStatement: likewise pops all variables plainly.
- Compiler.Compiler.ContinueStatement: likewise pops all variables plainly.
- Collector.Vm.BlackenObject: the function that an abstract object may bring along for marking is not modelled.
- Machine.Vm.Dispatch: number operators are parameters shared by the machine and the meaning of programs; calls, lists, dictionaries, classes and imports are not dispatched.
- Floating point: all arithmetic of numbers is left uninterpreted; `bigint_from_double`, `bigint_double` and the buffer-size estimates are not modelled.
- Constant folding is off in the modelled compiler: its byte test cannot tell a constant index from an opcode.
- Classes, enums, traits, annotations, imports, `with`, lists and dictionaries in the compiler: table copying and plumbing; function calls and closures are treated in `closures/` only, apart from control flow. Code for scopes there pops captured variables with CLOSE_UPVALUE, the control-flow compiler pops plain ones.
- Emission after the first compile error: the compiler stops there, where the original goes on and throws the chunk away. A `continue` outside a loop is an error here; the original reports it and then follows a null pointer.
- The jumps at the end of the cases of a switch are patched innermost first here and in a list there; the bytes are the same. A `for` loop may start with any declarations or statements here.
- The limit of the value stack, of frames, and the one of 255 locals is checked where the compiler checks it; stack growth at run time is not limited.
- The scanner and the precedence parser: programs are syntax trees; the order of emission is theirs.
- Hash values: any function of the key, in place of FNV and the bit mixer; a mask by a power of two less one is a remainder.
- ObjSet, the and, or and xor of big integers, comparing two negative ones, square roots, random numbers and primality: left out, for the defects noted in the code or because they add nothing harder.
- In the collector the open upvalues are a sequence, an abstract object refers to its table of values, and all compiler levels give the roots of their class table; bytes allocated and the next threshold are not modelled.
- Addresses of strings are numbers that are not reused; the real allocator may reuse the address of a freed string.
- SHA-256 and HMAC: null pointers and the dummy computation against timing are left out; messages of 2^64 bits and more count modulo 2^64, as in the code.
- UTF-8 and Base64: masks and shifts are written as quotients and remainders; case mapping, searching and comparison of UTF-8 strings are not modelled.
- Failing allocations and overflow of C sizes: memory and sizes are assumed to suffice.
- I/O, networking, processes, databases, the foreign function interface and the prompt: no logic of their own.
