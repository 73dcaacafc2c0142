/** A whole run of the compilers of nested functions, and the closures that the machine makes from it. */
module Nesting {
  import opened Options
  import opened Resolution
  import opened Upvalues

  const LOCALS := 256

  /** Identifiers are never empty. */
  type Name = s: string | s != "" witness "x"

  /** What happens while nested functions are compiled: a function begins, with the scope of its parameters, a scope begins, a
      local is declared, its initialiser ends, a scope ends, a name is read or assigned, a function ends. */
  datatype Event =
    | Enter
    | BeginScope
    | Declare(name: Name, keyword: bool)
    | Define
    | EndScope
    | Use(name: Name)
    | Assign(name: Name)
    | Leave

  /** Slot zero of a function holds the function itself and has no name. */
  function NewFn(depth: nat): Fn {
    Fn([Local("", false, false, 0, false)], [], [], depth)
  }

  /** A local as it is declared. */
  function Declared(name: Name, keyword: bool): Local {
    Local(name, false, false, -1, keyword)
  }

  /** The initialiser of the last local is being compiled. */
  predicate Pending(f: Fn) {
    f.locals != [] && !f.locals[|f.locals| - 1].Defined()
  }

  /** The last local is defined, and constant from now on if it was declared so. */
  function Defined(locals: seq<Local>, depth: nat): (r: seq<Local>)
    requires locals != []
    ensures |r| == |locals| && forall i :: 0 <= i < |r| ==> r[i].name == locals[i].name && r[i].isUpvalue == locals[i].isUpvalue
  {
    var last := locals[|locals| - 1];
    locals[|locals| - 1 := last.(depth := depth, constant := last.keyword)]
  }

  /** Without the locals at the end that are deeper than `depth`. */
  function Shallow(locals: seq<Local>, depth: int): (r: seq<Local>)
    ensures r <= locals
  {
    if locals == [] || locals[|locals| - 1].depth <= depth then locals else Shallow(locals[..|locals| - 1], depth)
  }

  /** From the last local on, as long as they stand in the scope of depth `depth`: one has the name. */
  predicate Redeclared(locals: seq<Local>, name: string, depth: nat) {
    locals != [] && var last := locals[|locals| - 1];
      (!last.Defined() || last.depth >= depth) && (last.name == name || Redeclared(locals[..|locals| - 1], name, depth))
  }

  /** The compilers after an event; `None` for a compile error, or an event that cannot happen here. */
  function Step(fns: seq<Fn>, e: Event): (r: Option<seq<Fn>>)
    requires fns != []
    ensures r.Some? ==> r.value != []
  {
    var k := |fns| - 1;
    match e
    case Enter => Some(fns + [NewFn(1)])
    case BeginScope => if Pending(fns[k]) then None else Some(fns[k := fns[k].(depth := fns[k].depth + 1)])
    case Declare(name, keyword) =>
      if Pending(fns[k]) || fns[k].depth == 0 || Redeclared(fns[k].locals, name, fns[k].depth) || |fns[k].locals| == LOCALS then None
      else Some(fns[k := fns[k].(locals := fns[k].locals + [Declared(name, keyword)])])
    case Define => if !Pending(fns[k]) then None else Some(fns[k := fns[k].(locals := Defined(fns[k].locals, fns[k].depth))])
    case EndScope =>
      if Pending(fns[k]) || fns[k].depth <= Outermost(k) then None
      else Some(fns[k := fns[k].(locals := Shallow(fns[k].locals, fns[k].depth - 1), depth := fns[k].depth - 1)])
    case Use(name) =>
      var slot := SlotOf(fns[k].locals, name);
      if slot >= 0 then if fns[k].locals[slot].Defined() then Some(fns) else None
      else
        var o := Resolve(fns, name);
        if o.failed then None else Some(o.fns)
    case Assign(name) =>
      var slot := SlotOf(fns[k].locals, name);
      if slot >= 0 then if !fns[k].locals[slot].Defined() || fns[k].locals[slot].constant then None else Some(fns)
      else
        var o := Resolve(fns, name);
        if o.failed || (o.index >= 0 && Flag(o.fns[k], o.index)) then None else Some(o.fns)
    case Leave => if k == 0 || Pending(fns[k]) || fns[k].depth != Outermost(k) then None else Some(fns[..k])
  }

  /** How many scopes stay open in a function until it ends: that of its parameters, and none in the script. */
  function Outermost(level: nat): nat {
    if level == 0 then 0 else 1
  }

  predicate Mentions(e: Event) {
    e.Use? || e.Assign?
  }

  predicate StepsTo(fns: seq<Fn>, e: Event, next: seq<Fn>) {
    fns != [] && Step(fns, e) == Some(next)
  }

  /** `states[t]` is before event `t`. */
  predicate Run(events: seq<Event>, states: seq<seq<Fn>>) {
    |states| == |events| + 1 && states[0] == [NewFn(0)] && forall t :: 0 <= t < |events| ==> StepsTo(states[t], events[t], states[t + 1])
  }

  /** Every function that was entered has been left. */
  predicate Complete(events: seq<Event>, states: seq<seq<Fn>>) {
    Run(events, states) && |states[|events|]| == 1
  }

  // ---- single steps ----

  /** Below level `k` the locals have the names they had. */
  predicate SameNames(fns: seq<Fn>, later: seq<Fn>, k: nat) {
    && k < |fns| && k < |later|
    && (forall j :: 0 <= j < k ==> |later[j].locals| == |fns[j].locals|)
    && (forall j, i :: 0 <= j < k && 0 <= i < |fns[j].locals| ==> later[j].locals[i].name == fns[j].locals[i].name)
  }

  lemma StepWellFormed(fns: seq<Fn>, e: Event, next: seq<Fn>)
    requires WellFormed(fns) && StepsTo(fns, e, next)
    ensures WellFormed(next)
  {
    hide Resolve;
    var k := |fns| - 1;
    match e
    case Enter => EnterWellFormed(fns);
    case BeginScope => LocalsWellFormed(fns, fns[k].locals, fns[k].depth + 1);
    case Declare(name, keyword) => LocalsWellFormed(fns, fns[k].locals + [Declared(name, keyword)], fns[k].depth);
    case Define => LocalsWellFormed(fns, Defined(fns[k].locals, fns[k].depth), fns[k].depth);
    case EndScope => LocalsWellFormed(fns, Shallow(fns[k].locals, fns[k].depth - 1), fns[k].depth - 1);
    case Use(name) => if SlotOf(fns[k].locals, name) < 0 { ResolveMeans(fns, name); }
    case Assign(name) => if SlotOf(fns[k].locals, name) < 0 { ResolveMeans(fns, name); }
    case Leave => PrefixWellFormed(fns, k);
  }

  lemma EnterWellFormed(fns: seq<Fn>)
    requires WellFormed(fns)
    ensures WellFormed(fns + [NewFn(1)])
  {
    var next := fns + [NewFn(1)];
    forall j, i | 0 <= j < |next| && 0 <= i < |next[j].upvalues|
      ensures RefOk(next, j, next[j].upvalues[i])
    {
      assert RefOk(fns, j, fns[j].upvalues[i]);
    }
  }

  /** No upvalue leads to a local of the innermost function. */
  lemma LocalsWellFormed(fns: seq<Fn>, locals: seq<Local>, depth: nat)
    requires WellFormed(fns) && fns != []
    ensures WellFormed(fns[|fns| - 1 := fns[|fns| - 1].(locals := locals, depth := depth)])
  {
    var next := fns[|fns| - 1 := fns[|fns| - 1].(locals := locals, depth := depth)];
    forall j, i | 0 <= j < |next| && 0 <= i < |next[j].upvalues|
      ensures RefOk(next, j, next[j].upvalues[i])
    {
      assert RefOk(fns, j, fns[j].upvalues[i]);
    }
  }

  /** A step that does not end the function at level `k` keeps its upvalues, and all below it. */
  lemma StepKeeps(fns: seq<Fn>, e: Event, next: seq<Fn>, k: nat)
    requires WellFormed(fns) && StepsTo(fns, e, next) && k < |fns| && k < |next|
    ensures Extends(fns, next, k) && SameNames(fns, next, k)
  {
    hide Resolve, WellFormed;
    if Mentions(e) && SlotOf(fns[|fns| - 1].locals, e.name) < 0 { ResolveMeans(fns, e.name); }
  }

  lemma StepLevel(fns: seq<Fn>, e: Event, next: seq<Fn>)
    requires StepsTo(fns, e, next)
    ensures |next| == |fns| + if e.Enter? then 1 else if e.Leave? then -1 else 0
  {
    hide Resolve;
  }

  // ---- runs ----

  lemma {:induction false} RunWellFormed(events: seq<Event>, states: seq<seq<Fn>>, t: nat)
    requires Run(events, states) && t <= |events|
    ensures WellFormed(states[t]) && states[t] != []
    decreases t
  {
    if t > 0 {
      RunWellFormed(events, states, t - 1);
      assert StepsTo(states[t - 1], events[t - 1], states[t - 1 + 1]);
      StepWellFormed(states[t - 1], events[t - 1], states[t]);
    }
  }

  lemma RunStep(events: seq<Event>, states: seq<seq<Fn>>, t: nat)
    requires Run(events, states) && t < |events|
    ensures |states| == |events| + 1 && StepsTo(states[t], events[t], states[t + 1]) && WellFormed(states[t])
    ensures |states[t + 1]| == |states[t]| + (if events[t].Enter? then 1 else if events[t].Leave? then -1 else 0)
    ensures |states[t + 1]| > 0
  {
    hide Step;
    RunWellFormed(events, states, t);
    RunWellFormed(events, states, t + 1);
    StepLevel(states[t], events[t], states[t + 1]);
  }

  lemma StartLevel(events: seq<Event>, states: seq<seq<Fn>>)
    requires Run(events, states)
    ensures |states| == |events| + 1 && |states[0]| == 1
  {
  }

  /** From `a` to `b` the function at level `k` is not left. */
  predicate Throughout(states: seq<seq<Fn>>, k: nat, a: nat, b: nat) {
    a <= b < |states| && forall u :: a <= u <= b ==> k < |states[u]|
  }

  lemma {:induction false} RunKeeps(events: seq<Event>, states: seq<seq<Fn>>, k: nat, a: nat, b: nat)
    requires Run(events, states) && Throughout(states, k, a, b)
    ensures Extends(states[a], states[b], k) && SameNames(states[a], states[b], k)
    decreases b
  {
    if a < b {
      RunKeeps(events, states, k, a, b - 1);
      RunWellFormed(events, states, b - 1);
      assert StepsTo(states[b - 1], events[b - 1], states[b - 1 + 1]);
      StepKeeps(states[b - 1], events[b - 1], states[b], k);
    }
  }

  /** When the function that is innermost at time `t` was entered. */
  function Owner(events: seq<Event>, t: nat): (q: nat)
    requires t <= |events|
    ensures q <= t
  {
    if t == 0 then 0
    else match events[t - 1]
      case Enter => t
      case Leave =>
        var q := Owner(events, t - 1);
        if q == 0 then 0 else Owner(events, q - 1)
      case _ => Owner(events, t - 1)
  }

  /** When the function around the one entered at `q` was entered. */
  function Enclosing(events: seq<Event>, q: nat): (r: nat)
    requires 0 < q <= |events|
    ensures r < q
  {
    Owner(events, q - 1)
  }

  /** A function was entered at `q`: event `q - 1`, or the beginning. */
  predicate Entered(events: seq<Event>, q: nat) {
    q <= |events| && (q == 0 || events[q - 1].Enter?)
  }

  function Level(states: seq<seq<Fn>>, q: nat): int
    requires q < |states|
  {
    |states[q]| - 1
  }

  /** The function that owns time `t` has been there ever since it was entered, and is innermost now. */
  lemma {:induction false} OwnerSpan(events: seq<Event>, states: seq<seq<Fn>>, t: nat)
    requires Run(events, states) && t <= |events|
    ensures var q := Owner(events, t);
            && Entered(events, q) && Level(states, q) == Level(states, t) >= 0 && Throughout(states, Level(states, q), q, t)
    decreases t
  {
    hide Run, StepsTo;
    if t > 0 {
      OwnerSpan(events, states, t - 1);
      RunStep(events, states, t - 1);
      if events[t - 1].Leave? {
        var q := Owner(events, t - 1);
        StartLevel(events, states);
        RunStep(events, states, q - 1);
        OwnerSpan(events, states, q - 1);
      }
    } else {
      StartLevel(events, states);
    }
  }

  /** From `t` on, when the function at level `k` is left, or else the end. */
  function Last(events: seq<Event>, states: seq<seq<Fn>>, k: int, t: nat): (l: nat)
    requires |states| == |events| + 1 && t <= |events|
    ensures t <= l <= |events|
    decreases |events| - t
  {
    if t == |events| || (events[t].Leave? && Level(states, t) == k) then t else Last(events, states, k, t + 1)
  }

  /** Until then the function is there. */
  lemma {:induction false} LastSpan(events: seq<Event>, states: seq<seq<Fn>>, k: nat, t: nat)
    requires Complete(events, states) && t <= |events| && k <= Level(states, t)
    ensures var l := Last(events, states, k, t); Throughout(states, k, t, l) && Level(states, l) == k
    decreases |events| - t
  {
    if t < |events| && !(events[t].Leave? && Level(states, t) == k) {
      RunWellFormed(events, states, t);
      assert StepsTo(states[t], events[t], states[t + 1]);
      StepLevel(states[t], events[t], states[t + 1]);
      LastSpan(events, states, k, t + 1);
    }
  }

  /** A function is not left before the last time at which it is innermost. */
  lemma {:induction false} LastAfter(events: seq<Event>, states: seq<seq<Fn>>, k: nat, q: nat, t: nat)
    requires Complete(events, states) && Throughout(states, k, q, t) && t <= |events|
    ensures t <= Last(events, states, k, q) == Last(events, states, k, t)
    decreases t - q
  {
    if q < t {
      RunWellFormed(events, states, q);
      assert StepsTo(states[q], events[q], states[q + 1]);
      StepLevel(states[q], events[q], states[q + 1]);
      assert k < |states[q + 1]|;
      LastAfter(events, states, k, q + 1, t);
    }
  }

  /** The state in which the function entered at `q` is left, and its closures get their pairs. */
  function Final(events: seq<Event>, states: seq<seq<Fn>>, q: nat): seq<Fn>
    requires Run(events, states) && q <= |events|
  {
    states[Last(events, states, Level(states, q), q)]
  }

  // ---- closures ----

  /** `c` is a closure of the function entered at `q`, faithful to what the compiler knew when it left it, in
      activations with as many variables as the compiler then counted. */
  ghost predicate ClosureOf(events: seq<Event>, states: seq<seq<Fn>>, q: nat, c: ObjClosure)
    requires Run(events, states)
  {
    && Entered(events, q) && Level(states, q) >= 0
    && var fns := Final(events, states, q);
       Faithful(c, fns, Level(states, q)) && forall j :: 0 <= j < |c.env| && j < |fns| ==> |c.env[j]| == |fns[j].locals|
  }

  lemma TopCapturesNothing(fns: seq<Fn>)
    requires WellFormed(fns) && fns != []
    ensures fns[0].upvalues == []
  {
    assert |fns[0].upvalues| > 0 ==> RefOk(fns, 0, fns[0].upvalues[0]);
  }

  /** The script itself captures nothing. */
  lemma ScriptClosure(events: seq<Event>, states: seq<seq<Fn>>, c: ObjClosure)
    requires Complete(events, states) && c.upvalues == [] && c.env == []
    ensures ClosureOf(events, states, 0, c)
  {
    LastSpan(events, states, 0, 0);
    var l := Last(events, states, 0, 0);
    RunWellFormed(events, states, l);
    TopCapturesNothing(states[l]);
  }

  /** What the enclosing closure needs for `CLOSURE`, and that the frame has the slots the compiler counted. */
  lemma ParentFaithful(events: seq<Event>, states: seq<seq<Fn>>, q: nat, parent: ObjClosure)
    requires Complete(events, states) && Entered(events, q) && q > 0 && ClosureOf(events, states, Enclosing(events, q), parent)
    ensures var k := Level(states, q);
            var fns := Final(events, states, q);
            && 0 < k && |fns| == k + 1 && Faithful(parent, fns, k - 1)
            && forall j :: 0 <= j < k - 1 ==> |parent.env[j]| == |fns[j].locals|
  {
    hide Run, StepsTo, Means, WellFormed;
    RunStep(events, states, q - 1);
    var o, k := Enclosing(events, q), Level(states, q);
    OwnerSpan(events, states, q - 1);
    LastSpan(events, states, k, q);
    var l := Last(events, states, k, q);
    LastAfter(events, states, k - 1, o, l);
    LastSpan(events, states, k - 1, l);
    EarlierClosure(events, states, parent, k - 1, l, Last(events, states, k - 1, l));
  }

  lemma NewClosure(events: seq<Event>, states: seq<seq<Fn>>, q: nat, parent: ObjClosure, c: ObjClosure, here: seq<nat>)
    requires Complete(events, states) && Entered(events, q) && q > 0 && ClosureOf(events, states, Enclosing(events, q), parent)
    requires Level(states, q) > 0 && |Final(events, states, q)| > Level(states, q) && c.env == parent.env + [here]
    requires |here| == |Final(events, states, q)[Level(states, q) - 1].locals| && Faithful(c, Final(events, states, q), Level(states, q))
    ensures ClosureOf(events, states, q, c)
  {
    hide Run, Means, WellFormed;
    ParentFaithful(events, states, q, parent);
  }

  /** A closure made by the time `b` was already right at the time `a`. */
  lemma EarlierClosure(events: seq<Event>, states: seq<seq<Fn>>, c: ObjClosure, k: nat, a: nat, b: nat)
    requires Run(events, states) && Throughout(states, k, a, b) && Faithful(c, states[b], k)
    requires forall j :: 0 <= j < k ==> |c.env[j]| == |states[b][j].locals|
    ensures Faithful(c, states[a], k) && forall j :: 0 <= j < k ==> |c.env[j]| == |states[a][j].locals|
  {
    RunKeeps(events, states, k, a, b);
    RunWellFormed(events, states, a);
    FaithfulEarlier(c, states[a], states[b], k);
  }

  /** A name read or assigned at time `t`, in the function entered at `Owner(events, t)` and not a local of it. Through every
      closure of that function it reaches the variable of the lexically innermost declaration, whenever the closure
      was made and whatever else was declared, dropped and captured before. */
  lemma AccessInRun(events: seq<Event>, states: seq<seq<Fn>>, t: nat, c: ObjClosure)
    requires Complete(events, states) && t < |events| && Mentions(events[t]) && states[t] != []
    requires SlotOf(states[t][|states[t]| - 1].locals, events[t].name) < 0
    requires ClosureOf(events, states, Owner(events, t), c)
    ensures var fns := states[t];
            var d := Lexical(fns[..|fns| - 1], events[t].name);
            var i := Resolve(fns, events[t].name).index;
            && (i == -1 <==> d.None?)
            && (d.Some? ==>
                  && 0 <= i < |c.upvalues| && Denotes(c.env, d.value, c.upvalues[i].cell)
                  && NamedSlot(Final(events, states, Owner(events, t)), d.value, events[t].name))
  {
    hide Run, StepsTo, Lexical, Resolve, SlotOf, WellFormed, Faithful, Denotes;
    RunStep(events, states, t);
    OwnerSpan(events, states, t);
    var fns, name, q, k := states[t], events[t].name, Owner(events, t), Level(states, t);
    LastAfter(events, states, k, q, t);
    LastSpan(events, states, k, t);
    var l := Last(events, states, k, t);
    UseStep(fns, events[t], states[t + 1]);
    ResolveMeans(fns, name);
    assert Throughout(states, k, t + 1, l);
    RunKeeps(events, states, k, t + 1, l);
    if Resolve(fns, name).index >= 0 {
      AccessIsLexical(c, fns, states[l], name);
      var d := Lexical(fns[..k], name).value;
      LexicalNamed(fns[..k], name);
      assert NamedSlot(fns[..k], d, name);
      assert NamedSlot(states[t + 1], d, name);
    }
  }

  lemma UseStep(fns: seq<Fn>, e: Event, next: seq<Fn>)
    requires StepsTo(fns, e, next) && Mentions(e) && SlotOf(fns[|fns| - 1].locals, e.name) < 0
    ensures !Resolve(fns, e.name).failed && next == Resolve(fns, e.name).fns
  {
  }

  lemma {:induction false} LexicalNamed(fns: seq<Fn>, name: string)
    ensures var d := Lexical(fns, name); d.Some? ==> NamedSlot(fns, d.value, name)
    decreases |fns|
  {
    if fns != [] { LexicalNamed(fns[..|fns| - 1], name); }
  }

  /** `d` is a local called `name`. */
  predicate NamedSlot(fns: seq<Fn>, d: Declaration, name: string) {
    d.level < |fns| && d.slot < |fns[d.level].locals| && fns[d.level].locals[d.slot].name == name
  }

  // ---- which variables are popped plainly ----

  /** Slot `slot` of the function at level `k` is the same local from `a` to `b`. */
  predicate SlotStays(states: seq<seq<Fn>>, k: nat, slot: nat, a: nat, b: nat) {
    Throughout(states, k, a, b) && forall u :: a <= u <= b ==> slot < |states[u][k].locals|
  }

  lemma StepMarks(fns: seq<Fn>, e: Event, next: seq<Fn>, k: nat, slot: nat)
    requires WellFormed(fns) && StepsTo(fns, e, next) && k < |fns| && k < |next|
    requires slot < |fns[k].locals| && slot < |next[k].locals| && fns[k].locals[slot].isUpvalue
    ensures next[k].locals[slot].isUpvalue
  {
    hide Resolve, WellFormed;
    if Mentions(e) && SlotOf(fns[|fns| - 1].locals, e.name) < 0 { ResolveMeans(fns, e.name); }
  }

  lemma {:induction false} MarksStay(events: seq<Event>, states: seq<seq<Fn>>, k: nat, slot: nat, a: nat, b: nat)
    requires Run(events, states) && SlotStays(states, k, slot, a, b) && states[a][k].locals[slot].isUpvalue
    ensures states[b][k].locals[slot].isUpvalue
    decreases b
  {
    if a < b {
      MarksStay(events, states, k, slot, a, b - 1);
      RunStep(events, states, b - 1);
      StepMarks(states[b - 1], events[b - 1], states[b], k, slot);
    }
  }

  /** A local that is not marked when its scope ends, or when a `break` or `continue` discards it, was captured by
      none of the functions compiled since it was declared: a plain pop is enough for it. */
  lemma UnmarkedNotCaptured(events: seq<Event>, states: seq<seq<Fn>>, q: nat, slot: nat, t: nat)
    requires Complete(events, states) && 0 < q <= t <= |events| && Entered(events, q) && Level(states, q) > 0
    requires var k := Level(states, q) - 1;
             SlotStays(states, k, slot, q - 1, t) && Level(states, t) == k && !states[t][k].locals[slot].isUpvalue
    ensures |Final(events, states, q)| == Level(states, q) + 1
    ensures Ref(true, slot) !in Final(events, states, q)[Level(states, q)].upvalues
  {
    hide Run, StepsTo;
    StartLevel(events, states);
    var k := Level(states, q) - 1;
    var l := Last(events, states, k + 1, q);
    LastSpan(events, states, k + 1, q);
    RunWellFormed(events, states, l);
    assert forall u :: q <= u <= l ==> k + 1 < |states[u]|;
    var us := states[l][k + 1].upvalues;
    forall i | 0 <= i < |us|
      ensures us[i] != Ref(true, slot)
    {
      assert RefOk(states[l], k + 1, us[i]);
      if us[i] == Ref(true, slot) { MarksStay(events, states, k, slot, l, t); }
    }
  }

  // ---- constants ----

  lemma StepFlags(fns: seq<Fn>, e: Event, next: seq<Fn>)
    requires FlagsRight(fns) && StepsTo(fns, e, next)
    ensures FlagsRight(next)
  {
    hide Resolve, FlagsRight, WellFormed;
    var k := |fns| - 1;
    match e
    case Enter => EnterFlags(fns);
    case BeginScope => LocalsFlags(fns, fns[k].locals, fns[k].depth + 1);
    case Declare(name, keyword) => LocalsFlags(fns, fns[k].locals + [Declared(name, keyword)], fns[k].depth);
    case Define => LocalsFlags(fns, Defined(fns[k].locals, fns[k].depth), fns[k].depth);
    case EndScope => LocalsFlags(fns, Shallow(fns[k].locals, fns[k].depth - 1), fns[k].depth - 1);
    case Use(name) => if SlotOf(fns[k].locals, name) < 0 { ResolveFlags(fns, name); }
    case Assign(name) => if SlotOf(fns[k].locals, name) < 0 { ResolveFlags(fns, name); }
    case Leave => FlagsPrefix(fns, k);
  }

  lemma EnterFlags(fns: seq<Fn>)
    requires FlagsRight(fns)
    ensures FlagsRight(fns + [NewFn(1)])
  {
    var next := fns + [NewFn(1)];
    EnterWellFormed(fns);
    forall j, i | 0 <= j < |next| && 0 <= i < |next[j].upvalues|
      ensures RefOk(next, j, next[j].upvalues[i]) && FlagOk(next, j, i)
    {
      assert RefOk(fns, j, fns[j].upvalues[i]) && FlagOk(fns, j, i);
    }
  }

  lemma LocalsFlags(fns: seq<Fn>, locals: seq<Local>, depth: nat)
    requires FlagsRight(fns) && fns != []
    ensures FlagsRight(fns[|fns| - 1 := fns[|fns| - 1].(locals := locals, depth := depth)])
  {
    var next := fns[|fns| - 1 := fns[|fns| - 1].(locals := locals, depth := depth)];
    LocalsWellFormed(fns, locals, depth);
    forall j, i | 0 <= j < |next| && 0 <= i < |next[j].upvalues|
      ensures RefOk(next, j, next[j].upvalues[i]) && FlagOk(next, j, i)
    {
      assert RefOk(fns, j, fns[j].upvalues[i]) && FlagOk(fns, j, i);
    }
  }

  lemma {:induction false} RunFlags(events: seq<Event>, states: seq<seq<Fn>>, t: nat)
    requires Run(events, states) && t <= |events|
    ensures FlagsRight(states[t])
    decreases t
  {
    if t > 0 {
      RunFlags(events, states, t - 1);
      assert StepsTo(states[t - 1], events[t - 1], states[t - 1 + 1]);
      StepFlags(states[t - 1], events[t - 1], states[t]);
    }
  }

  /** At all times: a local is flagged constant if it was declared so and its initialiser has ended, and only the last
      local of a function may still be without its initialiser. */
  predicate Timely(fns: seq<Fn>) {
    forall k, i :: 0 <= k < |fns| && 0 <= i < |fns[k].locals| ==>
      var l := fns[k].locals[i]; l.constant == (l.keyword && l.Defined()) && (l.Defined() || i == |fns[k].locals| - 1)
  }

  lemma StepTimely(fns: seq<Fn>, e: Event, next: seq<Fn>)
    requires WellFormed(fns) && Timely(fns) && StepsTo(fns, e, next)
    ensures Timely(next)
  {
    hide Resolve, WellFormed;
    if Mentions(e) && SlotOf(fns[|fns| - 1].locals, e.name) < 0 {
      ResolveMeans(fns, e.name);
      KeepsTimely(fns, next);
    }
  }

  lemma KeepsTimely(fns: seq<Fn>, later: seq<Fn>)
    requires Timely(fns) && Keeps(fns, later)
    ensures Timely(later)
  {
    forall k, i | 0 <= k < |later| && 0 <= i < |later[k].locals|
      ensures var l := later[k].locals[i]; l.constant == (l.keyword && l.Defined()) && (l.Defined() || i == |later[k].locals| - 1)
    {
      assert later[k].locals[i].(isUpvalue := true) == fns[k].locals[i].(isUpvalue := true);
    }
  }

  lemma {:induction false} RunTimely(events: seq<Event>, states: seq<seq<Fn>>, t: nat)
    requires Run(events, states) && t <= |events|
    ensures Timely(states[t])
    decreases t
  {
    if t > 0 {
      RunTimely(events, states, t - 1);
      RunStep(events, states, t - 1);
      StepTimely(states[t - 1], events[t - 1], states[t]);
    }
  }

  /** Anywhere in a run: assigning a name of an enclosing function that can be captured is refused if and only if the
      lexically innermost declaration of the name is of a constant whose initialiser has ended. A constant can be
      assigned in the functions that stand inside its own initialiser. */
  lemma ConstantsRefused(events: seq<Event>, states: seq<seq<Fn>>, t: nat, name: Name)
    requires Run(events, states) && t <= |events| && states[t] != []
    requires SlotOf(states[t][|states[t]| - 1].locals, name) < 0 && !Resolve(states[t], name).failed
    ensures var fns := states[t];
            var d := Lexical(fns[..|fns| - 1], name);
            && (d.Some? ==> NamedSlot(fns, d.value, name))
            && (Step(fns, Assign(name)) == None <==>
                d.Some? && var l := fns[d.value.level].locals[d.value.slot]; l.keyword && l.Defined())
  {
    hide Run, Resolve, Lexical, SlotOf, WellFormed, FlagsRight;
    StartLevel(events, states);
    RunFlags(events, states, t);
    RunTimely(events, states, t);
    var fns := states[t];
    var k, o := |fns| - 1, Resolve(fns, name);
    FlagsWellFormed(fns);
    ResolveMeans(fns, name);
    ResolveFlags(fns, name);
    LexicalNamed(fns[..k], name);
    if o.index >= 0 {
      var d := Lexical(fns[..k], name).value;
      assert NamedSlot(fns[..k], d, name);
      FlagMeans(o.fns, k, o.index);
      FlagIs(o.fns, k, o.index);
      assert o.fns[d.level].locals[d.slot].(isUpvalue := true) == fns[d.level].locals[d.slot].(isUpvalue := true);
    }
  }

  /** Local `slot` of the function at level `k` is declared by event `a`, and no event up to `t` ends its initialiser. */
  predicate Initialising(events: seq<Event>, states: seq<seq<Fn>>, k: nat, slot: nat, a: nat, t: nat) {
    && a < t <= |events| < |states| && events[a].Declare? && |states[a]| == k + 1 && |states[a][k].locals| == slot
    && Throughout(states, k, a, t)
    && forall u :: a < u < t && |states[u]| == k + 1 ==> !events[u].Define?
  }

  /** Not defined means that the initialiser is still being compiled. */
  lemma {:induction false} UndefinedIsInitialising(events: seq<Event>, states: seq<seq<Fn>>, k: nat, slot: nat, t: nat)
    returns (a: nat)
    requires Run(events, states) && t <= |events| && k < |states[t]| && slot < |states[t][k].locals|
    requires !states[t][k].locals[slot].Defined()
    ensures Initialising(events, states, k, slot, a, t)
    decreases t
  {
    hide Resolve, WellFormed, Run;
    StartLevel(events, states);
    assert t > 0 by { Beginning(events, states); }
    RunStep(events, states, t - 1);
    RunTimely(events, states, t);
    RunTimely(events, states, t - 1);
    var before, e := states[t - 1], events[t - 1];
    if k < |before| {
      StepLocals(before, e, states[t], k);
      if slot < |before[k].locals| && !before[k].locals[slot].Defined() {
        a := UndefinedIsInitialising(events, states, k, slot, t - 1);
      } else {
        a := t - 1;
      }
    }
  }

  lemma Beginning(events: seq<Event>, states: seq<seq<Fn>>)
    requires Run(events, states)
    ensures states[0] == [NewFn(0)]
  {
  }

  /** How the locals of a function that stays change. */
  lemma StepLocals(fns: seq<Fn>, e: Event, next: seq<Fn>, k: nat)
    requires WellFormed(fns) && Timely(fns) && StepsTo(fns, e, next) && k < |fns| && k < |next|
    ensures forall i :: 0 <= i < |next[k].locals| && !next[k].locals[i].Defined() ==>
      if i < |fns[k].locals| then !fns[k].locals[i].Defined() && !(e.Define? && k == |fns| - 1)
      else e.Declare? && k == |fns| - 1 && i == |fns[k].locals|
  {
    hide Resolve, WellFormed;
    if Mentions(e) && SlotOf(fns[|fns| - 1].locals, e.name) < 0 {
      ResolveMeans(fns, e.name);
      forall i | 0 <= i < |next[k].locals|
        ensures next[k].locals[i].Defined() == fns[k].locals[i].Defined()
      {
        assert next[k].locals[i].(isUpvalue := true) == fns[k].locals[i].(isUpvalue := true);
      }
    }
  }

  /** And as long as it is being compiled, the local is the last one, as it was declared and not defined. */
  lemma {:induction false} InitialisingIsUndefined(events: seq<Event>, states: seq<seq<Fn>>, k: nat, slot: nat, a: nat, t: nat)
    requires Run(events, states) && Initialising(events, states, k, slot, a, t)
    ensures k < |states[t]| && PendingAs(states[t][k], slot, Declared(events[a].name, events[a].keyword))
    decreases t
  {
    hide Resolve, WellFormed, Run, PendingAs;
    StartLevel(events, states);
    RunStep(events, states, t - 1);
    if t == a + 1 {
      DeclareStep(states[a], events[a], states[t]);
    } else {
      InitialisingIsUndefined(events, states, k, slot, a, t - 1);
      PendingStep(states[t - 1], events[t - 1], states[t], k, slot, Declared(events[a].name, events[a].keyword));
    }
  }

  /** The last local is the one that was so declared, captured or not. */
  predicate PendingAs(f: Fn, slot: nat, l: Local) {
    |f.locals| == slot + 1 && f.locals[slot].(isUpvalue := false) == l && !l.Defined()
  }

  lemma DeclareStep(fns: seq<Fn>, e: Event, next: seq<Fn>)
    requires e.Declare? && StepsTo(fns, e, next)
    ensures |next| == |fns| && PendingAs(next[|fns| - 1], |fns[|fns| - 1].locals|, Declared(e.name, e.keyword))
  {
  }

  lemma PendingStep(fns: seq<Fn>, e: Event, next: seq<Fn>, k: nat, slot: nat, l: Local)
    requires WellFormed(fns) && StepsTo(fns, e, next) && k < |fns| && k < |next| && PendingAs(fns[k], slot, l)
    requires k == |fns| - 1 ==> !e.Define?
    ensures PendingAs(next[k], slot, l)
  {
    hide Resolve, WellFormed;
    if Mentions(e) && SlotOf(fns[|fns| - 1].locals, e.name) < 0 {
      ResolveMeans(fns, e.name);
      assert next[k].locals[slot].(isUpvalue := true) == fns[k].locals[slot].(isUpvalue := true);
    }
  }

  /** `{ const f = def () { f = 5; };` compiles; the same assignment in a function after it does not. */
  lemma AssignedInside() returns (states: seq<seq<Fn>>)
    ensures Run([BeginScope, Declare("f", true), Enter, Assign("f"), Leave, Define, Enter], states)
    ensures states[7] != [] && Step(states[7], Assign("f")) == None
  {
    var f, self := Declared("f", true), NewFn(0).locals[0];
    var marked := f.(isUpvalue := true);
    var done := marked.(depth := 1, constant := true);
    OneCapture(self, f);
    OneCapture(self, done);
    var declared, captured, defined := Fn([self, f], [], [], 1), Fn([self, marked], [], [], 1), Fn([self, done], [], [], 1);
    var inner := Fn([self], [Ref(true, 1)], [false], 1);
    states := [[NewFn(0)], [NewFn(1)], [declared], [declared, NewFn(1)], [captured, inner], [captured], [defined], [defined, NewFn(1)]];
    Begins();
    Declares(self, f);
    Enters(declared);
    assert StepsTo(states[3], Assign("f"), states[4]);
    Leaves(captured, inner);
    Defines(self, marked, done);
    Enters(defined);
    hide StepsTo;
    var events := [BeginScope, Declare("f", true), Enter, Assign("f"), Leave, Define, Enter];
    forall t | 0 <= t < |events|
      ensures StepsTo(states[t], events[t], states[t + 1])
    {
      assert t == 0 || t == 1 || t == 2 || t == 3 || t == 4 || t == 5 || t == 6;
    }
  }

  lemma Begins()
    ensures StepsTo([NewFn(0)], BeginScope, [NewFn(1)])
  {
    assert [NewFn(0)][0 := NewFn(0).(depth := 1)] == [NewFn(1)];
  }

  lemma Declares(self: Local, f: Local)
    requires self == NewFn(0).locals[0] && f == Declared("f", true)
    ensures StepsTo([NewFn(1)], Declare("f", true), [Fn([self, f], [], [], 1)])
  {
    assert [NewFn(1)][0 := Fn([self, f], [], [], 1)] == [Fn([self, f], [], [], 1)] && [self] + [f] == [self, f];
    assert !Redeclared([self], "f", 1);
    assert NewFn(1) == Fn([self], [], [], 1);
  }

  lemma Enters(f: Fn)
    ensures StepsTo([f], Enter, [f, NewFn(1)])
  {
    assert [f] + [NewFn(1)] == [f, NewFn(1)];
  }

  lemma Leaves(f: Fn, inner: Fn)
    requires !Pending(inner) && inner.depth == 1
    ensures StepsTo([f, inner], Leave, [f])
  {
    assert [f, inner][..1] == [f];
  }

  lemma Defines(self: Local, f: Local, done: Local)
    requires !f.Defined() && done == f.(depth := 1, constant := f.keyword)
    ensures StepsTo([Fn([self, f], [], [], 1)], Define, [Fn([self, done], [], [], 1)])
  {
    assert Defined([self, f], 1) == [self, done];
    assert [Fn([self, f], [], [], 1)][0 := Fn([self, done], [], [], 1)] == [Fn([self, done], [], [], 1)];
  }

  lemma OneCapture(self: Local, f: Local)
    requires self == NewFn(0).locals[0] && f.name == "f"
    ensures SlotOf([self], "f") == -1
    ensures Resolve([Fn([self, f], [], [], 1), NewFn(1)], "f") ==
            Outcome([Fn([self, f.(isUpvalue := true)], [], [], 1), Fn([self], [Ref(true, 1)], [f.constant], 1)], 0, false)
  {
    OneName(self, f);
    var fns := [Fn([self, f], [], [], 1), NewFn(1)];
    ResolveStep(fns, "f");
    var marked := Fn([self, f.(isUpvalue := true)], [], [], 1);
    assert Mark(fns[0], 1) == marked && fns[0 := marked] == [marked, NewFn(1)];
    assert [] + [Ref(true, 1)] == [Ref(true, 1)] && [] + [f.constant] == [f.constant];
    assert NewFn(1) == Fn([self], [], [], 1);
    var inner := Fn([self], [Ref(true, 1)], [f.constant], 1);
    assert [marked, NewFn(1)][1 := inner] == [marked, inner];
  }

  lemma OneName(self: Local, f: Local)
    requires self.name == "" && f.name == "f"
    ensures SlotOf([self], "f") == -1 && SlotOf([self, f], "f") == 1
  {
    assert [self][..0] == [];
  }

  lemma FlagIs(fns: seq<Fn>, k: nat, i: nat)
    requires FlagsRight(fns) && k < |fns| && i < |fns[k].upvalues|
    ensures i < |fns[k].constants| && Flag(fns[k], i) == fns[k].constants[i]
  {
  }
}
