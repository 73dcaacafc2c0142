/** Which declaration a name refers to, told by the events alone, and that the compilers agree. */
module Scopes {
  import opened Options
  import opened Resolution
  import opened Nesting

  // ---- by the events ----

  /** How many functions and scopes are open before event `t`. */
  function Depth(events: seq<Event>, t: nat): int
    requires t <= |events|
  {
    if t == 0 then 0 else Depth(events, t - 1) + Opened(events[t - 1])
  }

  function Opened(e: Event): int {
    match e
    case Enter => 1
    case BeginScope => 1
    case EndScope => -1
    case Leave => -1
    case _ => 0
  }

  /** The scope that declaration `a` stands in has not ended before event `t`. */
  predicate InScope(events: seq<Event>, a: nat, t: nat) {
    a < t <= |events| && events[a].Declare? && forall u :: a < u <= t ==> Depth(events, u) >= Depth(events, a)
  }

  /** Among the first `n` events, the last declaration of the name whose scope has not ended. */
  function Latest(events: seq<Event>, name: Name, n: nat, t: nat): (a: Option<nat>)
    requires n <= t <= |events|
    ensures a.Some? ==> a.value < n && InScope(events, a.value, t) && events[a.value].name == name
    ensures forall b :: (if a.Some? then a.value + 1 else 0) <= b < n && InScope(events, b, t) ==> events[b].name != name
  {
    if n == 0 then None
    else if InScope(events, n - 1, t) && events[n - 1].name == name then Some(n - 1)
    else Latest(events, name, n - 1, t)
  }

  /** The initialiser of declaration `a` has ended: there was an end of one in the same scope since. */
  predicate Ended(events: seq<Event>, a: nat, t: nat) {
    a < t <= |events| && exists u :: a < u < t && events[u].Define? && Depth(events, u) == Depth(events, a)
  }

  // ---- by the compilers ----

  /** The scopes open in the first `k` functions. */
  function Base(fns: seq<Fn>, k: nat): nat
    requires k <= |fns|
  {
    if k == 0 then 0 else Base(fns, k - 1) + fns[k - 1].depth
  }

  lemma {:induction false} BaseSame(fns: seq<Fn>, next: seq<Fn>, k: nat)
    requires k <= |fns| && k <= |next| && forall j :: 0 <= j < k ==> fns[j].depth == next[j].depth
    ensures Base(fns, k) == Base(next, k)
    decreases k
  {
    if k > 0 { BaseSame(fns, next, k - 1); }
  }

  lemma {:induction false} BaseGrows(fns: seq<Fn>, j: nat, k: nat)
    requires j <= k <= |fns|
    ensures Base(fns, j) <= Base(fns, k)
    decreases k
  {
    if j < k { BaseGrows(fns, j, k - 1); }
  }

  predicate Open(fns: seq<Fn>) {
    fns != [] && forall k :: 0 <= k < |fns| ==> fns[k].depth >= Outermost(k)
  }

  /** How a step changes the open scopes. */
  lemma StepDepths(fns: seq<Fn>, e: Event, next: seq<Fn>)
    requires WellFormed(fns) && StepsTo(fns, e, next) && Open(fns)
    ensures Open(next) && forall j :: 0 <= j < |fns| - 1 ==> j < |next| && next[j].depth == fns[j].depth
    ensures var k := |fns| - 1;
            if e.Enter? then |next| == k + 2 && next[k].depth == fns[k].depth && next[k + 1].depth == 1
            else if e.Leave? then |next| == k && fns[k].depth == 1
            else |next| == k + 1 && next[k].depth == fns[k].depth + Opened(e)
  {
    hide Resolve, WellFormed;
    if Mentions(e) && SlotOf(fns[|fns| - 1].locals, e.name) < 0 { ResolveMeans(fns, e.name); }
  }

  /** The open scopes of all functions together are those that the events count. */
  lemma {:induction false} RunDepth(events: seq<Event>, states: seq<seq<Fn>>, t: nat)
    requires Run(events, states) && t <= |events|
    ensures Open(states[t]) && Depth(events, t) == Base(states[t], |states[t]|)
    decreases t
  {
    hide StepsTo, Run;
    if t > 0 {
      RunDepth(events, states, t - 1);
      RunStep(events, states, t - 1);
      var fns, next := states[t - 1], states[t];
      var k := |fns| - 1;
      StepDepths(fns, events[t - 1], next);
      BaseSame(fns, next, k);
    } else {
      Beginning(events, states);
    }
  }

  // ---- the locals are the declarations in scope ----

  /** The scopes around local `i` in its function. */
  function DepthOf(f: Fn, i: nat): int
    requires i < |f.locals|
  {
    if f.locals[i].Defined() then f.locals[i].depth else f.depth
  }

  /** Local number `i + 1` of the function at level `k` is what declaration `a` made. */
  predicate Made(events: seq<Event>, states: seq<seq<Fn>>, t: nat, k: nat, i: nat, a: nat)
    requires t <= |events| < |states|
  {
    && InScope(events, a, t) && |states[a]| == k + 1 && |states[a][k].locals| == i + 1
    && k < |states[t]| && i + 1 < |states[t][k].locals|
    && var f := states[t][k]; var l := f.locals[i + 1];
       && l.name == events[a].name && l.keyword == events[a].keyword && (l.Defined() <==> Ended(events, a, t))
       && Depth(events, a) == Base(states[t], k) + DepthOf(f, i + 1) && 0 < DepthOf(f, i + 1) <= f.depth
  }

  /** `o[k]` lists the declarations that made the locals of the function at level `k`: all that are in scope, in their order. */
  predicate Placed(events: seq<Event>, states: seq<seq<Fn>>, t: nat, o: seq<seq<nat>>)
    requires t <= |events| < |states|
  {
    && Sized(states[t], o) && Ordered(o)
    && (forall k, i :: 0 <= k < |o| && 0 <= i < |o[k]| ==> Made(events, states, t, k, i, o[k][i]))
    && AllPlaced(events, states, t, o)
  }

  predicate Sized(fns: seq<Fn>, o: seq<seq<nat>>) {
    |o| == |fns| && forall k :: 0 <= k < |o| ==> |fns[k].locals| == |o[k]| + 1 && fns[k].locals[0].name == "" && fns[k].locals[0].depth == 0
  }

  predicate Ordered(o: seq<seq<nat>>) {
    && (forall k, i, j :: 0 <= k < |o| && 0 <= i < j < |o[k]| ==> o[k][i] < o[k][j])
    && (forall k, l, i, j :: 0 <= k < l < |o| && 0 <= i < |o[k]| && 0 <= j < |o[l]| ==> o[k][i] < o[l][j])
  }

  predicate AllPlaced(events: seq<Event>, states: seq<seq<Fn>>, t: nat, o: seq<seq<nat>>)
    requires t <= |events| < |states|
  {
    forall a :: 0 <= a < t && InScope(events, a, t) ==> 0 < |states[a]| <= |o| && a in o[|states[a]| - 1]
  }

  lemma PlacedFirst(events: seq<Event>, states: seq<seq<Fn>>)
    requires Run(events, states)
    ensures Placed(events, states, 0, [[]])
  {
  }

  /** A step that ends no scope. */
  lemma StillInScope(events: seq<Event>, a: nat, t: nat)
    requires a < t < |events| && Depth(events, t + 1) >= Depth(events, a)
    ensures InScope(events, a, t) <==> InScope(events, a, t + 1)
  {
    if InScope(events, a, t) {
      forall u | a < u <= t + 1
        ensures Depth(events, u) >= Depth(events, a)
      {
      }
    }
  }

  lemma InScopeEarlier(events: seq<Event>, a: nat, t: nat)
    requires a < t < |events| && InScope(events, a, t + 1)
    ensures InScope(events, a, t) && Depth(events, t + 1) >= Depth(events, a)
  {
  }

  lemma NewInScope(events: seq<Event>, t: nat)
    requires t < |events| && events[t].Declare?
    ensures InScope(events, t, t + 1) && !Ended(events, t, t + 1)
  {
    assert Depth(events, t + 1) == Depth(events, t);
  }

  lemma StillEnded(events: seq<Event>, a: nat, t: nat)
    requires a < t < |events|
    ensures Ended(events, a, t + 1) <==> Ended(events, a, t) || (events[t].Define? && Depth(events, t) == Depth(events, a))
  {
    if Ended(events, a, t) {
      var u :| a < u < t && events[u].Define? && Depth(events, u) == Depth(events, a);
      assert a < u < t + 1;
    }
  }

  // ---- one step ----

  predicate SameLocals(f: Fn, g: Fn) {
    |g.locals| == |f.locals| && forall i :: 0 <= i < |f.locals| ==>
      g.locals[i].name == f.locals[i].name && g.locals[i].keyword == f.locals[i].keyword && g.locals[i].depth == f.locals[i].depth
  }

  lemma ResolveSame(fns: seq<Fn>, name: string)
    requires fns != [] && WellFormed(fns) && !Resolve(fns, name).failed
    ensures var next := Resolve(fns, name).fns; |next| == |fns| && forall j :: 0 <= j < |fns| ==> SameLocals(fns[j], next[j])
  {
    ResolveMeans(fns, name);
    var next := Resolve(fns, name).fns;
    forall j, i | 0 <= j < |fns| && 0 <= i < |fns[j].locals|
      ensures next[j].locals[i].name == fns[j].locals[i].name && next[j].locals[i].keyword == fns[j].locals[i].keyword
      ensures next[j].locals[i].depth == fns[j].locals[i].depth
    {
      assert next[j].locals[i].(isUpvalue := true) == fns[j].locals[i].(isUpvalue := true);
    }
  }

  predicate Quiet(e: Event) {
    e.Enter? || e.BeginScope? || e.Use? || e.Assign?
  }

  /** What a step does to the locals. */
  lemma StepLocalsAre(fns: seq<Fn>, e: Event, next: seq<Fn>)
    requires WellFormed(fns) && StepsTo(fns, e, next) && |next| >= |fns| - 1
    ensures forall j :: 0 <= j < |fns| - 1 ==> SameLocals(fns[j], next[j])
    ensures var k := |fns| - 1;
            && (Quiet(e) ==> k < |next| && SameLocals(fns[k], next[k]))
            && (e.Enter? ==> next == fns + [NewFn(1)])
            && (e.BeginScope? || e.Declare? || e.EndScope? || e.Leave? ==> !Pending(fns[k]))
            && (e.Declare? ==> k < |next| && fns[k].depth > 0 && next[k].locals == fns[k].locals + [Declared(e.name, e.keyword)])
            && (e.Define? ==> k < |next| && Pending(fns[k]) && next[k].locals == Defined(fns[k].locals, fns[k].depth))
            && (e.EndScope? ==> k < |next| && next[k].locals == Shallow(fns[k].locals, fns[k].depth - 1))
  {
    hide Resolve, WellFormed, Shallow;
    if Mentions(e) && SlotOf(fns[|fns| - 1].locals, e.name) < 0 { ResolveSame(fns, e.name); }
  }

  /** A local that a step leaves, or only defines. */
  lemma MadeAgain(events: seq<Event>, states: seq<seq<Fn>>, t: nat, k: nat, i: nat, a: nat)
    requires t < |events| < |states| && Made(events, states, t, k, i, a)
    requires k < |states[t + 1]| && i + 1 < |states[t + 1][k].locals| && Base(states[t + 1], k) == Base(states[t], k)
    requires var l, m := states[t][k].locals[i + 1], states[t + 1][k].locals[i + 1];
             && m.name == l.name && m.keyword == l.keyword
             && (m.Defined() <==> l.Defined() || (events[t].Define? && Depth(events, t) == Depth(events, a)))
    requires DepthOf(states[t + 1][k], i + 1) == DepthOf(states[t][k], i + 1) <= states[t + 1][k].depth
    requires Depth(events, t + 1) >= Depth(events, a)
    ensures Made(events, states, t + 1, k, i, a)
  {
    hide InScope, Ended;
    Before(events, a, t);
    StillInScope(events, a, t);
    StillEnded(events, a, t);
  }

  lemma Before(events: seq<Event>, a: nat, t: nat)
    requires InScope(events, a, t)
    ensures a < t
  {
  }

  /** All but the last local of a function are defined, and the last one too if nothing is pending. */
  lemma DefinedUnless(fns: seq<Fn>, k: nat, i: nat)
    requires Timely(fns) && k < |fns| && i < |fns[k].locals| && (i < |fns[k].locals| - 1 || !Pending(fns[k]))
    ensures fns[k].locals[i].Defined()
  {
  }

  /** What is known before and after event `t`. */
  lemma Around(events: seq<Event>, states: seq<seq<Fn>>, t: nat)
    requires Run(events, states) && t < |events|
    ensures |states| == |events| + 1 && StepsTo(states[t], events[t], states[t + 1]) && WellFormed(states[t]) && states[t] != []
    ensures Open(states[t]) && Open(states[t + 1]) && Timely(states[t]) && Timely(states[t + 1])
    ensures Depth(events, t) == Base(states[t], |states[t]|) && Depth(events, t + 1) == Depth(events, t) + Opened(events[t])
    ensures |states[t + 1]| == |states[t]| + (if events[t].Enter? then 1 else if events[t].Leave? then -1 else 0)
    ensures forall j :: 0 <= j < |states[t]| - 1 ==> j < |states[t + 1]| && states[t + 1][j].depth == states[t][j].depth
    ensures var k := |states[t]| - 1;
            events[t].Leave? || (k < |states[t + 1]| &&
              states[t + 1][k].depth == states[t][k].depth + if events[t].Enter? then 0 else Opened(events[t]))
    ensures forall k :: 0 <= k < |states[t]| && k <= |states[t + 1]| ==> Base(states[t + 1], k) == Base(states[t], k)
  {
    hide StepsTo, Run, WellFormed, Timely, Open;
    RunWellFormed(events, states, t);
    RunStep(events, states, t);
    RunDepth(events, states, t);
    RunDepth(events, states, t + 1);
    RunTimely(events, states, t);
    RunTimely(events, states, t + 1);
    StepDepths(states[t], events[t], states[t + 1]);
    forall k | 0 <= k < |states[t]| && k <= |states[t + 1]|
      ensures Base(states[t + 1], k) == Base(states[t], k)
    {
      BaseSame(states[t], states[t + 1], k);
    }
  }

  lemma MadeInScope(events: seq<Event>, states: seq<seq<Fn>>, t: nat, k: nat, i: nat, a: nat)
    requires t <= |events| < |states| && Made(events, states, t, k, i, a)
    ensures a < t && InScope(events, a, t) && Depth(events, t) >= Depth(events, a)
  {
  }

  lemma QuietMade(events: seq<Event>, states: seq<seq<Fn>>, t: nat, k: nat, i: nat, a: nat)
    requires Run(events, states) && t < |events| < |states| && Quiet(events[t]) && Made(events, states, t, k, i, a)
    ensures Made(events, states, t + 1, k, i, a)
  {
    hide Run, StepsTo, WellFormed, Timely, Open, InScope, Ended, Base;
    Around(events, states, t);
    StepLocalsAre(states[t], events[t], states[t + 1]);
    MadeInScope(events, states, t, k, i, a);
    if k == |states[t]| - 1 && events[t].BeginScope? { DefinedUnless(states[t], k, i + 1); }
    MadeAgain(events, states, t, k, i, a);
  }

  /** Nothing new is in scope unless it is declared now. */
  lemma Complete1(events: seq<Event>, states: seq<seq<Fn>>, t: nat, o: seq<seq<nat>>, a: nat)
    requires t < |events| < |states| && Placed(events, states, t, o) && a < t && InScope(events, a, t + 1)
    ensures InScope(events, a, t) && 0 < |states[a]| <= |o| && a in o[|states[a]| - 1] && Depth(events, t + 1) >= Depth(events, a)
  {
    hide Made, Ordered, Sized;
    InScopeEarlier(events, a, t);
  }

  lemma QuietSized(events: seq<Event>, states: seq<seq<Fn>>, t: nat, o: seq<seq<nat>>, p: seq<seq<nat>>)
    requires Run(events, states) && t < |events| < |states| && Quiet(events[t]) && Sized(states[t], o) && Ordered(o)
    requires p == if events[t].Enter? then o + [[]] else o
    ensures Sized(states[t + 1], p) && Ordered(p)
  {
    hide Run, StepsTo, WellFormed, Timely, Open, Base;
    Around(events, states, t);
    StepLocalsAre(states[t], events[t], states[t + 1]);
  }

  lemma PlacedQuiet(events: seq<Event>, states: seq<seq<Fn>>, t: nat, o: seq<seq<nat>>) returns (p: seq<seq<nat>>)
    requires Run(events, states) && t < |events| < |states| && Quiet(events[t]) && Placed(events, states, t, o)
    ensures Placed(events, states, t + 1, p)
  {
    hide Run, StepsTo, WellFormed, Timely, Open, InScope, Ended, Base, Made, Pending;
    p := if events[t].Enter? then o + [[]] else o;
    QuietSized(events, states, t, o, p);
    hide Sized, Ordered;
    forall k, i | 0 <= k < |p| && 0 <= i < |p[k]|
      ensures Made(events, states, t + 1, k, i, p[k][i])
    {
      QuietMade(events, states, t, k, i, o[k][i]);
    }
    forall a | 0 <= a < t + 1 && InScope(events, a, t + 1)
      ensures 0 < |states[a]| <= |p| && a in p[|states[a]| - 1]
    {
      ItDeclares(events, a, t + 1);
      Complete1(events, states, t, o, a);
    }
  }

  lemma ItDeclares(events: seq<Event>, a: nat, t: nat)
    requires InScope(events, a, t)
    ensures a < |events| && events[a].Declare?
  {
  }

  lemma PlacedDeclare(events: seq<Event>, states: seq<seq<Fn>>, t: nat, o: seq<seq<nat>>) returns (p: seq<seq<nat>>)
    requires Run(events, states) && t < |events| < |states| && events[t].Declare? && Placed(events, states, t, o)
    ensures Placed(events, states, t + 1, p)
  {
    hide Run, StepsTo, WellFormed, Timely, Open, InScope, Ended, Base, Made, Pending;
    Around(events, states, t);
    StepLocalsAre(states[t], events[t], states[t + 1]);
    var top := |states[t]| - 1;
    p := o[top := o[top] + [t]];
    forall k, i | 0 <= k < |p| && 0 <= i < |p[k]|
      ensures Made(events, states, t + 1, k, i, p[k][i]) && p[k][i] <= t
    {
      if k < top || i < |o[top]| {
        assert p[k][i] == o[k][i];
        MadeInScope(events, states, t, k, i, o[k][i]);
        DeclareMade(events, states, t, k, i, o[k][i]);
      } else {
        MadeNow(events, states, t);
      }
    }
    forall k, i | 0 <= k < |o| && 0 <= i < |o[k]|
      ensures o[k][i] < t
    {
      MadeInScope(events, states, t, k, i, o[k][i]);
    }
    forall a | 0 <= a < t + 1 && InScope(events, a, t + 1)
      ensures 0 < |states[a]| <= |p| && a in p[|states[a]| - 1]
    {
      if a < t {
        Complete1(events, states, t, o, a);
        assert forall k, x :: 0 <= k < |o| && x in o[k] ==> x in p[k];
      } else {
        assert p[top][|o[top]|] == t;
      }
    }
  }

  lemma DeclareMade(events: seq<Event>, states: seq<seq<Fn>>, t: nat, k: nat, i: nat, a: nat)
    requires Run(events, states) && t < |events| < |states| && events[t].Declare? && Made(events, states, t, k, i, a)
    ensures Made(events, states, t + 1, k, i, a)
  {
    hide Run, StepsTo, WellFormed, Timely, Open, InScope, Ended, Base;
    Around(events, states, t);
    StepLocalsAre(states[t], events[t], states[t + 1]);
    MadeInScope(events, states, t, k, i, a);
    if k == |states[t]| - 1 { DefinedUnless(states[t], k, i + 1); }
    MadeAgain(events, states, t, k, i, a);
  }

  lemma MadeNow(events: seq<Event>, states: seq<seq<Fn>>, t: nat)
    requires Run(events, states) && t < |events| < |states| && events[t].Declare? && states[t] != []
    requires |states[t][|states[t]| - 1].locals| > 0
    ensures var k := |states[t]| - 1; Made(events, states, t + 1, k, |states[t][k].locals| - 1, t)
  {
    hide Run, StepsTo, WellFormed, Timely, Open, InScope, Ended;
    Around(events, states, t);
    StepLocalsAre(states[t], events[t], states[t + 1]);
    NewInScope(events, t);
  }

  lemma PlacedDefine(events: seq<Event>, states: seq<seq<Fn>>, t: nat, o: seq<seq<nat>>)
    requires Run(events, states) && t < |events| < |states| && events[t].Define? && Placed(events, states, t, o)
    ensures Placed(events, states, t + 1, o)
  {
    hide Run, StepsTo, WellFormed, Timely, Open, InScope, Ended, Base, Made, Pending;
    Around(events, states, t);
    StepLocalsAre(states[t], events[t], states[t + 1]);
    SlotZeroDefined(events, states, t);
    forall k, i | 0 <= k < |o| && 0 <= i < |o[k]|
      ensures Made(events, states, t + 1, k, i, o[k][i])
    {
      DefineMade(events, states, t, k, i, o[k][i]);
    }
    forall a | 0 <= a < t + 1 && InScope(events, a, t + 1)
      ensures 0 < |states[a]| <= |o| && a in o[|states[a]| - 1]
    {
      ItDeclares(events, a, t + 1);
      Complete1(events, states, t, o, a);
    }
  }

  /** What is defined is not slot zero. */
  lemma SlotZeroDefined(events: seq<Event>, states: seq<seq<Fn>>, t: nat)
    requires Run(events, states) && t < |events| < |states| && events[t].Define? && states[t] != []
    requires var f := states[t][|states[t]| - 1]; f.locals != [] && f.locals[0].depth == 0
    ensures var k := |states[t]| - 1; k < |states[t + 1]| && |states[t + 1][k].locals| == |states[t][k].locals| > 1
    ensures var k := |states[t]| - 1; states[t + 1][k].locals[0] == states[t][k].locals[0]
    ensures var k := |states[t]| - 1; forall j :: 0 <= j < k ==> SameLocals(states[t][j], states[t + 1][j])
  {
    hide Run, StepsTo, WellFormed, Timely, Open;
    Around(events, states, t);
    StepLocalsAre(states[t], events[t], states[t + 1]);
  }

  lemma DefineMade(events: seq<Event>, states: seq<seq<Fn>>, t: nat, k: nat, i: nat, a: nat)
    requires Run(events, states) && t < |events| < |states| && events[t].Define? && Made(events, states, t, k, i, a)
    ensures Made(events, states, t + 1, k, i, a)
  {
    hide Run, StepsTo, WellFormed, Timely, InScope, Ended, Base;
    Around(events, states, t);
    StepLocalsAre(states[t], events[t], states[t + 1]);
    MadeInScope(events, states, t, k, i, a);
    var top := |states[t]| - 1;
    if k < top {
      DeeperThan(states[t], k, top);
      assert Depth(events, t) > Depth(events, a);
    } else if i + 1 < |states[t][top].locals| - 1 {
      DefinedUnless(states[t], k, i + 1);
    } else {
      assert Depth(events, t) == Depth(events, a) by { BaseLast(states[t]); }
    }
    MadeAgain(events, states, t, k, i, a);
  }

  lemma BaseLast(fns: seq<Fn>)
    requires fns != []
    ensures Base(fns, |fns|) == Base(fns, |fns| - 1) + fns[|fns| - 1].depth
  {
  }

  /** Further in there is at least one more scope. */
  lemma DeeperThan(fns: seq<Fn>, k: nat, top: nat)
    requires Open(fns) && k < top < |fns|
    ensures Base(fns, |fns|) > Base(fns, k) + fns[k].depth
  {
    hide Base, Open;
    BaseStep(fns, k);
    BaseStep(fns, top);
    AtLeastOne(fns, top);
    BaseGrows(fns, k + 1, top);
    BaseGrows(fns, top + 1, |fns|);
  }

  lemma BaseStep(fns: seq<Fn>, k: nat)
    requires k < |fns|
    ensures Base(fns, k + 1) == Base(fns, k) + fns[k].depth
  {
  }

  lemma AtLeastOne(fns: seq<Fn>, k: nat)
    requires Open(fns) && 0 < k < |fns|
    ensures fns[k].depth >= 1
  {
  }

  lemma {:induction false} ShallowIs(locals: seq<Local>, depth: int)
    ensures var n := |Shallow(locals, depth)|;
            && (forall i :: n <= i < |locals| ==> locals[i].depth > depth)
            && (n > 0 ==> locals[n - 1].depth <= depth)
            && (locals != [] && locals[0].depth <= depth ==> n > 0)
    decreases |locals|
  {
    if locals != [] && locals[|locals| - 1].depth > depth { ShallowIs(locals[..|locals| - 1], depth); }
  }

  /** Later declarations stand in deeper scopes. */
  lemma DepthsSorted(events: seq<Event>, states: seq<seq<Fn>>, t: nat, o: seq<seq<nat>>, k: nat, i: nat, j: nat)
    requires t <= |events| < |states| && Placed(events, states, t, o) && k < |o| && i <= j < |o[k]|
    ensures DepthOf(states[t][k], i + 1) <= DepthOf(states[t][k], j + 1)
  {
    hide Base, Ended;
    assert Made(events, states, t, k, i, o[k][i]) && Made(events, states, t, k, j, o[k][j]);
    if i < j { assert Depth(events, o[k][j]) >= Depth(events, o[k][i]); }
  }

  /** Of the locals of the innermost function exactly those stay that stand outside of the scope that ends. */
  lemma EndsInside(events: seq<Event>, states: seq<seq<Fn>>, t: nat, o: seq<seq<nat>>)
    requires Run(events, states) && t < |events| < |states| && events[t].EndScope? && Placed(events, states, t, o) && o != []
    ensures var k, next := |o| - 1, states[t + 1];
            && |next| == |o| && 0 < |next[k].locals| <= |o[k]| + 1 && next[k].locals <= states[t][k].locals
            && |states[t][k].locals| == |o[k]| + 1
            && forall s :: 1 <= s < |states[t][k].locals| ==>
                 states[t][k].locals[s].Defined() && DepthOf(states[t][k], s) == states[t][k].locals[s].depth
                 && (s < |next[k].locals| <==> states[t][k].locals[s].depth <= next[k].depth)
  {
    hide Run, StepsTo, WellFormed, Timely, Base, Made, AllPlaced, Ordered, Shallow;
    Around(events, states, t);
    StepLocalsAre(states[t], events[t], states[t + 1]);
    var k, next := |o| - 1, states[t + 1];
    var f, n := states[t][k], |next[k].locals|;
    ShallowIs(f.locals, f.depth - 1);
    forall s | 1 <= s < |f.locals|
      ensures f.locals[s].Defined() && (s < n <==> f.locals[s].depth <= next[k].depth)
    {
      DefinedUnless(states[t], k, s);
      if s < n {
        DefinedUnless(states[t], k, n - 1);
        DepthsSorted(events, states, t, o, k, s - 1, n - 2);
      }
    }
  }

  lemma PlacedEnd(events: seq<Event>, states: seq<seq<Fn>>, t: nat, o: seq<seq<nat>>) returns (p: seq<seq<nat>>)
    requires Run(events, states) && t < |events| < |states| && events[t].EndScope? && Placed(events, states, t, o)
    ensures Placed(events, states, t + 1, p)
  {
    hide Run, StepsTo, WellFormed, Timely, Open, InScope, Ended, Base, Made, Shallow, Pending;
    Around(events, states, t);
    StepLocalsAre(states[t], events[t], states[t + 1]);
    EndsInside(events, states, t, o);
    var top := |o| - 1;
    p := o[top := o[top][..|states[t + 1][top].locals| - 1]];
    forall k, i | 0 <= k < |p| && 0 <= i < |p[k]|
      ensures Made(events, states, t + 1, k, i, p[k][i])
    {
      EndMade(events, states, t, o, k, i);
    }
    forall a | 0 <= a < t + 1 && InScope(events, a, t + 1)
      ensures 0 < |states[a]| <= |p| && a in p[|states[a]| - 1]
    {
      ItDeclares(events, a, t + 1);
      Complete1(events, states, t, o, a);
      if |states[a]| - 1 == top {
        var i :| 0 <= i < |o[top]| && o[top][i] == a;
        StaysPlaced(events, states, t, o, i);
        assert p[top][i] == a;
      }
    }
  }

  lemma EndMade(events: seq<Event>, states: seq<seq<Fn>>, t: nat, o: seq<seq<nat>>, k: nat, i: nat)
    requires Run(events, states) && t < |events| < |states| && events[t].EndScope? && Placed(events, states, t, o)
    requires k < |o| && i < |o[k]| && (k == |o| - 1 ==> k < |states[t + 1]| && i + 1 < |states[t + 1][k].locals|)
    ensures Made(events, states, t + 1, k, i, o[k][i])
  {
    hide Run, StepsTo, WellFormed, Timely, InScope, Ended, Base, Shallow, AllPlaced, Ordered;
    Around(events, states, t);
    StepLocalsAre(states[t], events[t], states[t + 1]);
    EndsInside(events, states, t, o);
    var top := |o| - 1;
    assert Made(events, states, t, k, i, o[k][i]);
    BaseStep(states[t], top);
    if k < top {
      BaseStep(states[t], k);
      BaseGrows(states[t], k + 1, top);
    }
    MadeAgain(events, states, t, k, i, o[k][i]);
  }

  /** What is in scope after the end of a scope is among the locals that stay. */
  lemma StaysPlaced(events: seq<Event>, states: seq<seq<Fn>>, t: nat, o: seq<seq<nat>>, i: nat)
    requires Run(events, states) && t < |events| < |states| && events[t].EndScope? && Placed(events, states, t, o)
    requires o != [] && i < |o[|o| - 1]| && Depth(events, t + 1) >= Depth(events, o[|o| - 1][i])
    ensures var k := |o| - 1; k < |states[t + 1]| && i + 1 < |states[t + 1][k].locals|
  {
    hide Run, StepsTo, WellFormed, Timely, InScope, Ended, Base, Shallow, AllPlaced, Ordered;
    Around(events, states, t);
    EndsInside(events, states, t, o);
    assert Made(events, states, t, |o| - 1, i, o[|o| - 1][i]);
    BaseStep(states[t], |o| - 1);
  }

  lemma PlacedLeave(events: seq<Event>, states: seq<seq<Fn>>, t: nat, o: seq<seq<nat>>)
    requires Run(events, states) && t < |events| < |states| && events[t].Leave? && Placed(events, states, t, o)
    ensures o != [] && Placed(events, states, t + 1, o[..|o| - 1])
  {
    hide Run, StepsTo, WellFormed, Timely, Open, InScope, Ended, Base, Made;
    Around(events, states, t);
    StepLocalsAre(states[t], events[t], states[t + 1]);
    var p := o[..|o| - 1];
    forall k, i | 0 <= k < |p| && 0 <= i < |p[k]|
      ensures Made(events, states, t + 1, k, i, p[k][i])
    {
      assert p[k] == o[k];
      LeaveMade(events, states, t, k, i, o[k][i]);
    }
    forall a | 0 <= a < t + 1 && InScope(events, a, t + 1)
      ensures 0 < |states[a]| <= |p| && a in p[|states[a]| - 1]
    {
      ItDeclares(events, a, t + 1);
      Complete1(events, states, t, o, a);
      if |states[a]| == |o| {
        var i :| 0 <= i < |o[|o| - 1]| && o[|o| - 1][i] == a;
        LeftBehind(events, states, t, i, a);
      }
      assert p[|states[a]| - 1] == o[|states[a]| - 1];
    }
  }

  lemma LeaveMade(events: seq<Event>, states: seq<seq<Fn>>, t: nat, k: nat, i: nat, a: nat)
    requires Run(events, states) && t < |events| < |states| && events[t].Leave? && Made(events, states, t, k, i, a) && k < |states[t]| - 1
    ensures Made(events, states, t + 1, k, i, a)
  {
    hide Run, StepsTo, WellFormed, Timely, InScope, Ended, Base;
    Around(events, states, t);
    StepLocalsAre(states[t], events[t], states[t + 1]);
    DeeperThan(states[t], k, |states[t]| - 1);
    MadeAgain(events, states, t, k, i, a);
  }

  /** The locals of the function that ends go out of scope. */
  lemma LeftBehind(events: seq<Event>, states: seq<seq<Fn>>, t: nat, i: nat, a: nat)
    requires Run(events, states) && t < |events| < |states| && events[t].Leave? && states[t] != []
    requires Made(events, states, t, |states[t]| - 1, i, a)
    ensures Depth(events, t + 1) < Depth(events, a)
  {
    hide Run, StepsTo, WellFormed, Timely, InScope, Ended, Base;
    Around(events, states, t);
    StepDepths(states[t], events[t], states[t + 1]);
    BaseStep(states[t], |states[t]| - 1);
  }

  // ---- whole runs ----

  lemma {:induction false} RunPlaced(events: seq<Event>, states: seq<seq<Fn>>, t: nat) returns (o: seq<seq<nat>>)
    requires Run(events, states) && t <= |events| < |states|
    ensures Placed(events, states, t, o)
    decreases t
  {
    hide Run, Placed;
    if t == 0 {
      PlacedFirst(events, states);
      return [[]];
    }
    o := RunPlaced(events, states, t - 1);
    var e := events[t - 1];
    if Quiet(e) {
      o := PlacedQuiet(events, states, t - 1, o);
    } else if e.Declare? {
      o := PlacedDeclare(events, states, t - 1, o);
    } else if e.Define? {
      PlacedDefine(events, states, t - 1, o);
    } else if e.EndScope? {
      o := PlacedEnd(events, states, t - 1, o);
    } else {
      PlacedLeave(events, states, t - 1, o);
      o := o[..|o| - 1];
    }
  }

  /** Where declaration `a` put its local. */
  function PlaceOf(states: seq<seq<Fn>>, a: nat): Declaration
    requires a < |states| && states[a] != []
  {
    Declaration(|states[a]| - 1, |states[a][|states[a]| - 1].locals|)
  }

  /** Lexical lookup finds the last slot, in the order of levels and slots. */
  lemma {:induction false} LexicalLast(fns: seq<Fn>, name: string)
    ensures var d := Lexical(fns, name);
            && (d.Some? ==> NamedSlot(fns, d.value, name))
            && forall e: Declaration :: NamedSlot(fns, e, name) ==>
                 d.Some? && (e.level < d.value.level || (e.level == d.value.level && e.slot <= d.value.slot))
    decreases |fns|
  {
    if fns != [] {
      var k := |fns| - 1;
      LexicalLast(fns[..k], name);
      forall e: Declaration | NamedSlot(fns, e, name) && e.level < k
        ensures NamedSlot(fns[..k], e, name)
      {
      }
    }
  }

  /** The declaration that made a local. */
  lemma SlotPlaced(events: seq<Event>, states: seq<seq<Fn>>, t: nat, o: seq<seq<nat>>, d: Declaration, name: Name)
    requires t <= |events| < |states| && Placed(events, states, t, o) && NamedSlot(states[t], d, name)
    ensures d.slot > 0 && d.level < |o| && d.slot - 1 < |o[d.level]|
    ensures var b := o[d.level][d.slot - 1];
            && b < t && InScope(events, b, t) && events[b].name == name && states[b] != [] && PlaceOf(states, b) == d
            && states[t][d.level].locals[d.slot].keyword == events[b].keyword
            && (states[t][d.level].locals[d.slot].Defined() <==> Ended(events, b, t))
  {
    hide InScope, Ended, Base, AllPlaced, Ordered;
    assert Made(events, states, t, d.level, d.slot - 1, o[d.level][d.slot - 1]);
    MadeInScope(events, states, t, d.level, d.slot - 1, o[d.level][d.slot - 1]);
  }

  /** The local that a declaration in scope has made. */
  lemma DeclarationPlaced(events: seq<Event>, states: seq<seq<Fn>>, t: nat, o: seq<seq<nat>>, a: nat)
    requires t <= |events| < |states| && Placed(events, states, t, o) && a < t && InScope(events, a, t)
    ensures states[a] != [] && NamedSlot(states[t], PlaceOf(states, a), events[a].name)
    ensures var d := PlaceOf(states, a); d.level < |o| && 0 < d.slot <= |o[d.level]| && o[d.level][d.slot - 1] == a
  {
    hide InScope, Ended, Base, Ordered;
    var k := |states[a]| - 1;
    var i :| 0 <= i < |o[k]| && o[k][i] == a;
    assert Made(events, states, t, k, i, a);
  }

  /** In every run: the innermost declaration of a name that the compilers find is the last one whose scope has not ended, and
      they find none if there is none. Whether its initialiser has ended and whether it is constant is what the events say. */
  lemma LexicalByEvents(events: seq<Event>, states: seq<seq<Fn>>, name: Name, t: nat)
    requires Run(events, states) && t <= |events| < |states|
    ensures var a := Latest(events, name, t, t);
            && (a.None? <==> Lexical(states[t], name).None?)
            && (a.Some? ==>
                  && states[a.value] != [] && Lexical(states[t], name) == Some(PlaceOf(states, a.value))
                  && var d := PlaceOf(states, a.value);
                     && NamedSlot(states[t], d, name)
                     && states[t][d.level].locals[d.slot].keyword == events[a.value].keyword
                     && (states[t][d.level].locals[d.slot].Defined() <==> Ended(events, a.value, t)))
  {
    hide Run, Placed, Lexical, Latest, InScope, Ended, PlaceOf;
    var o := RunPlaced(events, states, t);
    var a := Latest(events, name, t, t);
    LexicalLast(states[t], name);
    var d := Lexical(states[t], name);
    if a.Some? { DeclarationPlaced(events, states, t, o, a.value); }
    if d.Some? {
      SlotPlaced(events, states, t, o, d.value, name);
      if a.value != o[d.value.level][d.value.slot - 1] { SamePlace(events, states, t, o, d.value, PlaceOf(states, a.value)); }
    }
  }

  lemma SamePlace(events: seq<Event>, states: seq<seq<Fn>>, t: nat, o: seq<seq<nat>>, d: Declaration, e: Declaration)
    requires t <= |events| < |states| && Placed(events, states, t, o)
    requires d.level < |o| && 0 < d.slot <= |o[d.level]| && e.level < |o| && 0 < e.slot <= |o[e.level]|
    requires e.level < d.level || (e.level == d.level && e.slot <= d.slot)
    requires o[e.level][e.slot - 1] >= o[d.level][d.slot - 1]
    ensures d == e
  {
    hide Made, AllPlaced, Sized;
  }
}
