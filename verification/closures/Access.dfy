/** Which events the compilers refuse, and where a name leads, told by the events alone. */
module Access {
  import opened Options
  import opened Resolution
  import opened Upvalues
  import opened Nesting
  import opened Scopes

  // ---- by the events ----

  /** How many functions are open around the script before event `t`. */
  function Functions(events: seq<Event>, t: nat): int
    requires t <= |events|
  {
    if t == 0 then 0
    else Functions(events, t - 1) + if events[t - 1].Enter? then 1 else if events[t - 1].Leave? then -1 else 0
  }

  /** The declarations in scope that stand in the innermost function. */
  function Here(events: seq<Event>, t: nat): (r: set<nat>)
    requires t <= |events|
    ensures forall a :: a in r ==> a < t && events[a].Declare?
  {
    set a | 0 <= a < t && InScope(events, a, t) && Functions(events, a) == Functions(events, t)
  }

  /** Slots are given in the order of the declarations; slot zero is the function's. */
  function Place(events: seq<Event>, a: nat): Declaration
    requires a < |events| && Functions(events, a) >= 0
  {
    Declaration(Functions(events, a), 1 + |Here(events, a)|)
  }

  /** An initialiser in the innermost function has not ended. */
  predicate Unfinished(events: seq<Event>, t: nat)
    requires t <= |events|
  {
    exists a :: a in Here(events, t) && !Ended(events, a, t)
  }

  /** No scope but that of the parameters is open in the innermost function. */
  predicate Outside(events: seq<Event>, t: nat)
    requires t <= |events|
  {
    Depth(events, t) == Depth(events, Owner(events, t))
  }

  /** What is refused at time `t`, apart from the limit of upvalues. */
  predicate Refused(events: seq<Event>, t: nat, e: Event)
    requires t <= |events|
  {
    match e
    case Enter => false
    case BeginScope => Unfinished(events, t)
    case Declare(name, _) =>
      || Unfinished(events, t) || Depth(events, t) == 0 || |Here(events, t)| == 255
      || exists a :: a in Here(events, t) && events[a].name == name && Depth(events, a) == Depth(events, t)
    case Define => !Unfinished(events, t)
    case EndScope => Unfinished(events, t) || Outside(events, t)
    case Leave => Unfinished(events, t) || !Outside(events, t) || Functions(events, t) == 0
    case Use(name) =>
      var a := Latest(events, name, t, t);
      a.Some? && a.value in Here(events, t) && !Ended(events, a.value, t)
    case Assign(name) =>
      var a := Latest(events, name, t, t);
      a.Some? && if a.value in Here(events, t) then !Ended(events, a.value, t) || events[a.value].keyword
                 else Ended(events, a.value, t) && events[a.value].keyword
  }

  // ---- the compilers ----

  lemma {:induction false} RunFunctions(events: seq<Event>, states: seq<seq<Fn>>, t: nat)
    requires Run(events, states) && t <= |events|
    ensures |states[t]| == Functions(events, t) + 1 > 0
    decreases t
  {
    hide Run, StepsTo;
    if t > 0 {
      RunFunctions(events, states, t - 1);
      RunStep(events, states, t - 1);
    } else {
      Beginning(events, states);
    }
  }

  lemma {:induction false} Increasing(s: seq<nat>, e: set<nat>)
    requires forall i, j :: 0 <= i < j < |s| ==> s[i] < s[j]
    requires forall x :: x in e <==> x in s
    ensures |e| == |s|
    decreases |s|
  {
    if s != [] {
      var n := |s| - 1;
      assert forall i :: 0 <= i < n ==> s[..n][i] == s[i];
      forall x
        ensures x in e - {s[n]} <==> x in s[..n]
      {
        if x in e && x != s[n] {
          var i :| 0 <= i < |s| && s[i] == x;
          assert s[..n][i] == x;
        }
      }
      Increasing(s[..n], e - {s[n]});
    } else {
      assert e == {};
    }
  }

  /** The locals of the innermost function, but for slot zero, are the declarations in scope there. */
  lemma HereIs(events: seq<Event>, states: seq<seq<Fn>>, t: nat) returns (o: seq<seq<nat>>)
    requires Run(events, states) && t <= |events| < |states|
    ensures Placed(events, states, t, o) && |o| == |states[t]| == Functions(events, t) + 1 > 0
    ensures forall a :: a in Here(events, t) <==> a in o[|o| - 1]
    ensures |states[t][|o| - 1].locals| == |o[|o| - 1]| + 1 == |Here(events, t)| + 1
  {
    hide Run, InScope, Ended, Made, Functions;
    o := RunPlaced(events, states, t);
    RunFunctions(events, states, t);
    var k := |o| - 1;
    forall a | a in o[k]
      ensures a in Here(events, t)
    {
      var i :| 0 <= i < |o[k]| && o[k][i] == a;
      assert Made(events, states, t, k, i, a);
      MadeHere(events, states, t, k, i, a);
    }
    forall a | a in Here(events, t)
      ensures a in o[k]
    {
      RunFunctions(events, states, a);
    }
    Increasing(o[k], Here(events, t));
  }

  lemma MadeHere(events: seq<Event>, states: seq<seq<Fn>>, t: nat, k: nat, i: nat, a: nat)
    requires Run(events, states) && t <= |events| < |states| && Made(events, states, t, k, i, a)
    ensures a < t && InScope(events, a, t) && Functions(events, a) == k
    ensures states[t][k].locals[i + 1].Defined() <==> Ended(events, a, t)
  {
    hide Run, Ended, Functions;
    RunFunctions(events, states, a);
  }

  /** Slots are given as the events say. */
  lemma PlaceIs(events: seq<Event>, states: seq<seq<Fn>>, a: nat)
    requires Run(events, states) && a < |events| < |states|
    ensures Functions(events, a) >= 0 && states[a] != [] && PlaceOf(states, a) == Place(events, a)
  {
    hide Run, Placed, Here, Functions;
    var _ := HereIs(events, states, a);
  }

  lemma PendingIs(events: seq<Event>, states: seq<seq<Fn>>, t: nat)
    requires Run(events, states) && t <= |events| < |states| && states[t] != []
    ensures Pending(states[t][|states[t]| - 1]) <==> Unfinished(events, t)
  {
    hide Run, InScope, Ended, Made, Functions, Here, AllPlaced, Ordered, Timely;
    var o := HereIs(events, states, t);
    RunTimely(events, states, t);
    var k := |o| - 1;
    var locals := states[t][k].locals;
    forall i | 0 <= i < |o[k]|
      ensures Ended(events, o[k][i], t) <==> locals[i + 1].Defined()
      ensures i < |o[k]| - 1 ==> locals[i + 1].Defined()
    {
      assert Made(events, states, t, k, i, o[k][i]);
      MadeHere(events, states, t, k, i, o[k][i]);
      if i < |o[k]| - 1 { DefinedUnless(states[t], k, i + 1); }
    }
    if Pending(states[t][k]) {
      assert |o[k]| > 0;
      var a := o[k][|o[k]| - 1];
      assert a in Here(events, t) && !Ended(events, a, t);
    }
    if Unfinished(events, t) {
      var a :| a in Here(events, t) && !Ended(events, a, t);
      var i :| 0 <= i < |o[k]| && o[k][i] == a;
      assert i == |o[k]| - 1;
    }
  }

  /** The scopes that are open in the innermost function were opened since it was entered. */
  lemma {:induction false} OutsideIs(events: seq<Event>, states: seq<seq<Fn>>, t: nat)
    requires Run(events, states) && t <= |events| < |states|
    ensures states[t] != []
    ensures Depth(events, Owner(events, t)) == Base(states[t], |states[t]| - 1) + Outermost(|states[t]| - 1)
    decreases t
  {
    hide Run, StepsTo, Base, WellFormed, Timely, Open, Owner;
    if t == 0 {
      OutsideFirst(events, states);
    } else if events[t - 1].Enter? {
      OutsideEntered(events, states, t);
    } else if events[t - 1].Leave? {
      var q := OutsideLeft(events, states, t);
      OutsideIs(events, states, q - 1);
      BaseThroughout(events, states, |states[t]| - 1, q - 1, t);
    } else {
      OutsideIs(events, states, t - 1);
      Around(events, states, t - 1);
      SameOwner(events, t);
    }
  }

  lemma OutsideFirst(events: seq<Event>, states: seq<seq<Fn>>)
    requires Run(events, states)
    ensures states[0] != [] && Depth(events, Owner(events, 0)) == Base(states[0], |states[0]| - 1) + Outermost(|states[0]| - 1)
  {
    hide Run;
    Beginning(events, states);
  }

  lemma OutsideEntered(events: seq<Event>, states: seq<seq<Fn>>, t: nat)
    requires Run(events, states) && 0 < t <= |events| < |states| && events[t - 1].Enter?
    ensures states[t] != [] && Depth(events, Owner(events, t)) == Base(states[t], |states[t]| - 1) + Outermost(|states[t]| - 1)
  {
    hide Run, StepsTo, Base, WellFormed, Timely, Open, Depth;
    Around(events, states, t - 1);
    StepDepths(states[t - 1], events[t - 1], states[t]);
    RunDepth(events, states, t);
    BaseStep(states[t], |states[t]| - 1);
  }

  /** The function that ends was entered before event `q`, and the one around it is there from then on. */
  lemma OutsideLeft(events: seq<Event>, states: seq<seq<Fn>>, t: nat) returns (q: nat)
    requires Run(events, states) && 0 < t <= |events| < |states| && events[t - 1].Leave?
    ensures 0 < q < t && Owner(events, t) == Owner(events, q - 1) && states[t] != [] && |states[q - 1]| == |states[t]|
    ensures Throughout(states, |states[t]| - 1, q - 1, t)
  {
    hide Run, StepsTo;
    OwnerSpan(events, states, t - 1);
    StartLevel(events, states);
    RunStep(events, states, t - 1);
    q := Owner(events, t - 1);
    RunStep(events, states, q - 1);
  }

  lemma SameOwner(events: seq<Event>, t: nat)
    requires 0 < t <= |events| && !events[t - 1].Enter? && !events[t - 1].Leave?
    ensures Owner(events, t) == Owner(events, t - 1)
  {
  }

  lemma NoBase(fns: seq<Fn>)
    ensures Base(fns, 0) == 0
  {
  }

  lemma {:induction false} BaseThroughout(events: seq<Event>, states: seq<seq<Fn>>, k: nat, a: nat, b: nat)
    requires Run(events, states) && Throughout(states, k, a, b) && b <= |events|
    ensures Base(states[a], k) == Base(states[b], k)
    decreases b
  {
    hide Run, StepsTo, Base, WellFormed, Timely, Open;
    if a < b {
      BaseThroughout(events, states, k, a, b - 1);
      Around(events, states, b - 1);
    }
  }

  lemma {:induction false} RedeclaredScan(locals: seq<Local>, name: string, depth: nat)
    requires forall i :: 0 <= i < |locals| ==> locals[i].Defined()
    requires forall i, j :: 0 <= i < j < |locals| ==> locals[i].depth <= locals[j].depth
    ensures Redeclared(locals, name, depth) <==> exists i :: 0 <= i < |locals| && locals[i].name == name && locals[i].depth >= depth
    decreases |locals|
  {
    if locals != [] { RedeclaredScan(locals[..|locals| - 1], name, depth); }
  }

  /** A name is declared again if and only if a declaration of it stands in the same scope. */
  lemma RedeclaredIs(events: seq<Event>, states: seq<seq<Fn>>, t: nat, name: Name)
    requires Run(events, states) && t <= |events| < |states| && states[t] != [] && !Pending(states[t][|states[t]| - 1])
    ensures var f := states[t][|states[t]| - 1];
            Redeclared(f.locals, name, f.depth) <==>
            exists a :: a in Here(events, t) && events[a].name == name && Depth(events, a) == Depth(events, t)
  {
    hide Run, InScope, Ended, Made, Functions, Here, AllPlaced, Ordered, Timely, Base, Redeclared;
    var o := HereIs(events, states, t);
    RunTimely(events, states, t);
    RunDepth(events, states, t);
    var k := |o| - 1;
    var f := states[t][k];
    BaseStep(states[t], k);
    forall i | 0 <= i < |o[k]|
      ensures o[k][i] < t && events[o[k][i]].Declare?
      ensures f.locals[i + 1].Defined() && f.locals[i + 1].name == events[o[k][i]].name
      ensures f.locals[i + 1].depth >= f.depth <==> Depth(events, o[k][i]) == Depth(events, t)
    {
      DefinedUnless(states[t], k, i + 1);
      assert Made(events, states, t, k, i, o[k][i]);
      MadeDepth(events, states, t, k, i, o[k][i]);
    }
    forall i, j | 0 <= i < j < |f.locals|
      ensures f.locals[i].depth <= f.locals[j].depth
    {
      assert f.locals[j - 1 + 1].Defined();
      if i > 0 {
        assert f.locals[i - 1 + 1].Defined();
        DepthsSorted(events, states, t, o, k, i - 1, j - 1);
      }
    }
    RedeclaredScan(f.locals, name, f.depth);
    if i :| 0 <= i < |f.locals| && f.locals[i].name == name && f.locals[i].depth >= f.depth {
      assert i > 0 && o[k][i - 1] in o[k];
    }
    forall a | a in Here(events, t) && events[a].name == name && Depth(events, a) == Depth(events, t)
      ensures exists i :: 0 <= i < |f.locals| && f.locals[i].name == name && f.locals[i].depth >= f.depth
    {
      var i :| 0 <= i < |o[k]| && o[k][i] == a;
      assert f.locals[i + 1].name == name;
    }
  }

  lemma MadeDepth(events: seq<Event>, states: seq<seq<Fn>>, t: nat, k: nat, i: nat, a: nat)
    requires t <= |events| < |states| && Made(events, states, t, k, i, a)
    ensures a < t && events[a].Declare?
    ensures k < |states[t]| && i + 1 < |states[t][k].locals| && states[t][k].locals[i + 1].name == events[a].name
    ensures Depth(events, a) == Base(states[t], k) + DepthOf(states[t][k], i + 1) && DepthOf(states[t][k], i + 1) <= states[t][k].depth
  {
    hide Base, Ended;
  }

  lemma StepMeans(fns: seq<Fn>, e: Event)
    requires fns != []
    ensures var k := |fns| - 1;
            var f := fns[k];
            Step(fns, e) == None <==>
              match e
              case Enter => false
              case BeginScope => Pending(f)
              case Declare(name, _) => Pending(f) || f.depth == 0 || Redeclared(f.locals, name, f.depth) || |f.locals| == LOCALS
              case Define => !Pending(f)
              case EndScope => Pending(f) || f.depth <= Outermost(k)
              case Leave => k == 0 || Pending(f) || f.depth != Outermost(k)
              case _ => Step(fns, e) == None
  {
  }

  lemma Innermost(fns: seq<Fn>)
    requires Open(fns)
    ensures fns[|fns| - 1].depth >= Outermost(|fns| - 1) && (fns[|fns| - 1].depth == 0 <==> Base(fns, |fns|) == 0)
  {
    hide Base;
    var k := |fns| - 1;
    NoBase(fns);
    BaseStep(fns, k);
    assert fns[k].depth >= Outermost(k);
  }

  /** In every run: what is refused is what the events say, whatever the compilers hold. */
  lemma RefusedByEvents(events: seq<Event>, states: seq<seq<Fn>>, t: nat, e: Event)
    requires Run(events, states) && t <= |events| < |states| && !Mentions(e)
    ensures states[t] != [] && (Step(states[t], e) == None <==> Refused(events, t, e))
  {
    hide Run, Placed, Here, Functions, Pending, Unfinished, Base, Depth, Step, Owner, Open, Redeclared;
    var o := HereIs(events, states, t);
    var k := |states[t]| - 1;
    PendingIs(events, states, t);
    RunDepth(events, states, t);
    OutsideIs(events, states, t);
    BaseStep(states[t], k);
    Innermost(states[t]);
    if e.Declare? && !Pending(states[t][k]) { RedeclaredIs(events, states, t, e.name); }
    StepMeans(states[t], e);
  }

  // ---- names ----

  /** Where the compilers find a name, with the events that say so. */
  lemma Found(events: seq<Event>, states: seq<seq<Fn>>, name: Name, t: nat)
    requires Run(events, states) && t <= |events| < |states| && states[t] != []
    ensures var fns := states[t];
            var k := |fns| - 1;
            var a := Latest(events, name, t, t);
            var slot := SlotOf(fns[k].locals, name);
            && (slot >= 0 <==> a.Some? && a.value in Here(events, t))
            && (slot >= 0 ==>
                  && Functions(events, a.value) >= 0 && Place(events, a.value) == Declaration(k, slot)
                  && fns[k].locals[slot].constant == (events[a.value].keyword && Ended(events, a.value, t))
                  && (fns[k].locals[slot].Defined() <==> Ended(events, a.value, t)))
            && (slot < 0 ==>
                  && (a.None? <==> Lexical(fns[..k], name).None?)
                  && (a.Some? ==>
                        && Functions(events, a.value) >= 0 && Lexical(fns[..k], name) == Some(Place(events, a.value))
                        && var d := Place(events, a.value);
                           && NamedSlot(fns, d, name)
                           && fns[d.level].locals[d.slot].keyword == events[a.value].keyword
                           && (fns[d.level].locals[d.slot].Defined() <==> Ended(events, a.value, t))))
  {
    hide Run, Lexical, Latest, InScope, Ended, Here, Functions, Place, Timely;
    LexicalByEvents(events, states, name, t);
    LexicalTop(states[t], name);
    RunTimely(events, states, t);
    var a := Latest(events, name, t, t);
    if a.Some? {
      PlaceIs(events, states, a.value);
      InHere(events, states, a.value, t);
      LexicalNamed(states[t][..|states[t]| - 1], name);
      FlagTimely(states[t], PlaceOf(states, a.value));
    }
  }

  lemma LexicalTop(fns: seq<Fn>, name: string)
    requires fns != []
    ensures var k := |fns| - 1;
            var slot := SlotOf(fns[k].locals, name);
            Lexical(fns, name) == if slot >= 0 then Some(Declaration(k, slot)) else Lexical(fns[..k], name)
  {
  }

  lemma FlagTimely(fns: seq<Fn>, d: Declaration)
    requires Timely(fns) && d.level < |fns| && d.slot < |fns[d.level].locals|
    ensures var l := fns[d.level].locals[d.slot]; l.constant == (l.keyword && l.Defined())
  {
  }

  lemma InHere(events: seq<Event>, states: seq<seq<Fn>>, a: nat, t: nat)
    requires Run(events, states) && t <= |events| < |states| && a < t && InScope(events, a, t)
    ensures states[a] != [] && (a in Here(events, t) <==> PlaceOf(states, a).level == |states[t]| - 1)
  {
    hide Run, InScope, Functions;
    RunFunctions(events, states, a);
    RunFunctions(events, states, t);
  }

  /** Reading or assigning a name is refused if and only if the events say so, or it would be one upvalue too many. */
  lemma NameRefused(events: seq<Event>, states: seq<seq<Fn>>, t: nat, e: Event)
    requires Run(events, states) && t <= |events| < |states| && Mentions(e)
    ensures states[t] != []
    ensures var a := Latest(events, e.name, t, t);
            Step(states[t], e) == None <==>
              Refused(events, t, e) || (a.Some? && a.value !in Here(events, t) && Resolve(states[t], e.name).failed)
  {
    hide Run, Lexical, Latest, InScope, Ended, Here, Functions, Place, Resolve;
    RunWellFormed(events, states, t);
    Found(events, states, e.name, t);
    var fns, name := states[t], e.name;
    if SlotOf(fns[|fns| - 1].locals, name) < 0 {
      ResolveFails(fns, name);
      if e.Assign? && !Resolve(fns, name).failed { ConstantsRefused(events, states, t, name); }
    }
  }

  /** Event `e` after all others would need one upvalue too many in some function. */
  predicate TooMany(events: seq<Event>, states: seq<seq<Fn>>, t: nat, e: Event)
    requires t <= |events| && t < |states| && states[t] != []
  {
    && Mentions(e) && Resolve(states[t], e.name).failed
    && var a := Latest(events, e.name, t, t); a.Some? && a.value !in Here(events, t)
  }

  /** In every run: an event is refused if and only if the events before it say so, or for the number of upvalues. */
  lemma RefusedIff(events: seq<Event>, states: seq<seq<Fn>>, t: nat, e: Event)
    requires Run(events, states) && t <= |events| < |states|
    ensures states[t] != [] && (Step(states[t], e) == None <==> Refused(events, t, e) || TooMany(events, states, t, e))
  {
    hide Run, Refused, Step, Here, Resolve, Latest;
    if Mentions(e) { NameRefused(events, states, t, e); } else { RefusedByEvents(events, states, t, e); }
  }

  /** In every run, a name of an enclosing function that is read or assigned reaches, through every closure of the function
      it stands in, the variable of the last declaration of the name whose scope has not ended; if there is none, it is not
      an upvalue. */
  lemma AccessByEvents(events: seq<Event>, states: seq<seq<Fn>>, t: nat, c: ObjClosure)
    requires Complete(events, states) && t < |events| < |states| && Mentions(events[t])
    requires var a := Latest(events, events[t].name, t, t); a.Some? ==> a.value !in Here(events, t)
    requires ClosureOf(events, states, Owner(events, t), c)
    ensures states[t] != []
    ensures var a := Latest(events, events[t].name, t, t);
            var i := Resolve(states[t], events[t].name).index;
            && (i == -1 <==> a.None?)
            && (a.Some? ==>
                  && 0 <= i < |c.upvalues| && Functions(events, a.value) >= 0
                  && Denotes(c.env, Place(events, a.value), c.upvalues[i].cell))
  {
    hide Run, Lexical, Latest, InScope, Ended, Here, Functions, Place, Resolve, ClosureOf, Denotes, Final, NamedSlot;
    RunWellFormed(events, states, t);
    Found(events, states, events[t].name, t);
    AccessInRun(events, states, t, c);
  }

  /** The function of a declaration in scope is not left. */
  lemma DeclarerStays(events: seq<Event>, states: seq<seq<Fn>>, a: nat, t: nat)
    requires Run(events, states) && t <= |events| < |states| && a < t && InScope(events, a, t)
    ensures states[a] != [] && Throughout(states, |states[a]| - 1, a, t)
  {
    hide Run, InScope, Placed, Functions;
    RunFunctions(events, states, a);
    forall u | a <= u <= t
      ensures |states[a]| <= |states[u]|
    {
      if a < u {
        Until(events, a, u, t);
        var o := RunPlaced(events, states, u);
        DeclarationPlaced(events, states, u, o, a);
      }
    }
  }

  lemma Until(events: seq<Event>, a: nat, u: nat, t: nat)
    requires a < u <= t && InScope(events, a, t)
    ensures InScope(events, a, u)
  {
  }
}
