/** Calls, and the closures that they make. Whose slots the variables of a closure are, and for how long. */
module Activations {
  import opened Options
  import opened Resolution
  import opened Upvalues
  import opened Nesting
  import opened Scopes
  import opened Access

  /** The closure that is executed, and where its slots begin. */
  datatype Activation = Activation(closure: nat, slots: nat)

  /** A closure is of the function entered at `entry`; activation `maker` made it, after `born` actions of the machine. */
  datatype Origin = Origin(entry: nat, maker: nat, born: nat)

  // ---- what becomes of the slots ----

  /** `closed[j]` is the lowest slot that action `j` closed: between the two times none closed `place`. */
  predicate Untouched(closed: seq<nat>, from: nat, to: nat, place: nat) {
    forall j :: from <= j < to && j < |closed| ==> place < closed[j]
  }

  predicate Is(cells: seq<nat>, place: nat, cell: nat) {
    place < |cells| && cells[place] == cell
  }

  /** `history[t]` lists the variables that the slots were at time `t`. A variable never moves, and at a later time a slot
      is still the variable that it was if and only if it has not been closed in between. */
  predicate Recorded(history: seq<seq<nat>>, closed: seq<nat>, used: nat) {
    && |history| == |closed| + 1
    && (forall t, p :: 0 <= t < |history| && 0 <= p < |history[t]| ==> history[t][p] < used)
    && (forall t, p :: 0 <= t < |history| && 0 <= p < |history[t]| ==> StaysPut(history[|closed|], p, history[t][p]))
    && (forall t, u, p :: 0 <= t <= u < |history| && 0 <= p < |history[t]| ==>
          (Is(history[u], p, history[t][p]) <==> Untouched(closed, t, u, p)))
  }

  predicate StaysPut(cells: seq<nat>, place: nat, cell: nat) {
    forall q :: 0 <= q < |cells| && cells[q] == cell ==> q == place
  }

  lemma RecordedMore(history: seq<seq<nat>>, closed: seq<nat>, used: nat, last: nat, cells: seq<nat>, more: nat)
    requires Recorded(history, closed, used) && used <= more
    requires last <= |history[|closed|]| && last <= |cells| && cells[..last] == history[|closed|][..last]
    requires forall q :: last <= q < |cells| ==> used <= cells[q] < more
    requires forall p, q :: 0 <= p < q < |cells| ==> cells[p] != cells[q]
    ensures Recorded(history + [cells], closed + [last], more)
  {
    var before, now, later := history[|closed|], history + [cells], closed + [last];
    forall q | 0 <= q < last
      ensures cells[q] == before[q]
    {
      assert cells[..last][q] == before[..last][q];
    }
    forall t, p | 0 <= t < |now| && 0 <= p < |now[t]|
      ensures now[t][p] < more && StaysPut(cells, p, now[t][p])
      ensures Is(cells, p, now[t][p]) <==> Untouched(later, t, |history|, p)
    {
      if t < |history| {
        assert history[t][p] < used && StaysPut(before, p, history[t][p]);
        assert Is(before, p, history[t][p]) <==> Untouched(closed, t, |closed|, p);
        UntouchedMore(closed, last, t, p);
      } else if p < last {
        assert history[|closed|][p] < used;
      }
    }
    forall t, u, p | 0 <= t <= u < |now| && 0 <= p < |now[t]|
      ensures Is(now[u], p, now[t][p]) <==> Untouched(later, t, u, p)
    {
      if u < |history| {
        assert Is(history[u], p, history[t][p]) <==> Untouched(closed, t, u, p);
        assert forall j :: t <= j < u ==> later[j] == closed[j];
      }
    }
  }

  lemma UntouchedMore(closed: seq<nat>, last: nat, t: nat, place: nat)
    requires t <= |closed|
    ensures Untouched(closed + [last], t, |closed| + 1, place) <==> Untouched(closed, t, |closed|, place) && place < last
  {
    var later := closed + [last];
    if Untouched(later, t, |closed| + 1, place) {
      assert later[|closed|] == last;
      assert forall j :: t <= j < |closed| ==> later[j] == closed[j];
    }
  }

  lemma RecordedLast(history: seq<seq<nat>>, closed: seq<nat>, used: nat)
    requires Recorded(history, closed, used)
    ensures |history| == |closed| + 1
  {
  }

  lemma RecordedFirst(cells: seq<nat>, used: nat)
    requires forall p :: 0 <= p < |cells| ==> cells[p] < used
    requires forall p, q :: 0 <= p < q < |cells| ==> cells[p] != cells[q]
    ensures Recorded([cells], [], used)
  {
  }

  // ---- where closures come from ----

  /** Closure `i` has the variables of its maker's closure, and those that the slots of its maker were when it was made. */
  ghost predicate MadeBy(events: seq<Event>, closures: seq<ObjClosure>, origins: seq<Origin>, calls: seq<Activation>,
      history: seq<seq<nat>>, i: nat)
    requires 0 < i < |closures| == |origins|
  {
    var o := origins[i];
    && o.maker < |calls| && calls[o.maker].closure < i && o.born < |history| && 0 < o.entry <= |events|
    && origins[calls[o.maker].closure].entry == Enclosing(events, o.entry)
    && var parent, slots := closures[calls[o.maker].closure], calls[o.maker].slots;
       && |closures[i].env| == |parent.env| + 1
       && closures[i].env[..|parent.env|] == parent.env
       && var here := closures[i].env[|parent.env|];
          slots + |here| <= |history[o.born]| && here == history[o.born][slots..slots + |here|]
  }

  ghost predicate Lineage(events: seq<Event>, states: seq<seq<Fn>>, closures: seq<ObjClosure>, origins: seq<Origin>,
      calls: seq<Activation>, history: seq<seq<nat>>)
    requires Run(events, states)
  {
    && closures != [] && |closures| == |origins| && closures[0].env == []
    && (forall a :: 0 <= a < |calls| ==> calls[a].closure < |closures|)
    && (forall i :: 0 <= i < |closures| ==> ClosureOf(events, states, origins[i].entry, closures[i]))
    && (forall i :: 0 < i < |closures| ==> MadeBy(events, closures, origins, calls, history, i))
  }

  /** The activation whose slots the variables at `level` of closure `i` were, and when they were looked up. */
  ghost function Source(events: seq<Event>, states: seq<seq<Fn>>, closures: seq<ObjClosure>, origins: seq<Origin>,
      calls: seq<Activation>, history: seq<seq<nat>>, i: nat, level: nat): (s: (nat, nat))
    requires Run(events, states) && Lineage(events, states, closures, origins, calls, history)
    requires i < |closures| && level < |closures[i].env|
    ensures s.0 < |calls| && s.1 < |history|
    decreases i
  {
    assert i > 0 && MadeBy(events, closures, origins, calls, history, i);
    var parent := calls[origins[i].maker].closure;
    if level < |closures[parent].env| then Source(events, states, closures, origins, calls, history, parent, level)
    else (origins[i].maker, origins[i].born)
  }

  lemma {:induction false} SourceIs(events: seq<Event>, states: seq<seq<Fn>>, closures: seq<ObjClosure>,
      origins: seq<Origin>, calls: seq<Activation>, history: seq<seq<nat>>, i: nat, level: nat, slot: nat)
    requires Run(events, states) && Lineage(events, states, closures, origins, calls, history)
    requires i < |closures| && level < |closures[i].env| && slot < |closures[i].env[level]|
    ensures var s := Source(events, states, closures, origins, calls, history, i, level);
            Is(history[s.1], calls[s.0].slots + slot, closures[i].env[level][slot])
    decreases i
  {
    hide ClosureOf, Run;
    assert MadeBy(events, closures, origins, calls, history, i);
    var parent := calls[origins[i].maker].closure;
    if level < |closures[parent].env| {
      assert closures[i].env[level] == closures[i].env[..|closures[parent].env|][level] == closures[parent].env[level];
      SourceIs(events, states, closures, origins, calls, history, parent, level, slot);
    }
  }

  /** When the function was entered that is `n` levels around the one entered at `q`. */
  function Outward(events: seq<Event>, q: nat, n: nat): nat
    requires q <= |events|
    decreases n
  {
    if n == 0 || q == 0 then q else Outward(events, Enclosing(events, q), n - 1)
  }

  /** That is the function in which a declaration stands that is in scope so many levels further in. */
  lemma {:induction false} DeclarerAround(events: seq<Event>, states: seq<seq<Fn>>, k: nat, a: nat, t: nat)
    requires Run(events, states) && t <= |events| && Throughout(states, k, a, t) && |states[a]| == k + 1
    ensures k < |states[t]| && Outward(events, Owner(events, t), |states[t]| - 1 - k) == Owner(events, a)
    decreases t
  {
    hide Run, StepsTo, Step, Owner, Outward, Enclosing;
    if a < t {
      assert Throughout(states, k, a, t - 1) && k < |states[t]|;
      hide Throughout, Entered;
      DeclarerAround(events, states, k, a, t - 1);
      RunStep(events, states, t - 1);
      OwnerStep(events, t);
      var q := Owner(events, t - 1);
      if events[t - 1].Enter? {
        OutwardStep(events, t, |states[t]| - 1 - k);
      } else if events[t - 1].Leave? {
        OwnerSpan(events, states, t - 1);
        StartLevel(events, states);
        OutwardStep(events, q, |states[t]| - k);
      }
    } else {
      OutwardNone(events, Owner(events, t));
    }
  }

  lemma OwnerStep(events: seq<Event>, t: nat)
    requires 0 < t <= |events|
    ensures var q := Owner(events, t - 1);
            if events[t - 1].Enter? then Owner(events, t) == t && Enclosing(events, t) == q
            else if events[t - 1].Leave? then q > 0 ==> Owner(events, t) == Enclosing(events, q)
            else Owner(events, t) == q
  {
  }

  lemma OutwardStep(events: seq<Event>, q: nat, n: nat)
    requires 0 < q <= |events| && n > 0
    ensures Outward(events, q, n) == Outward(events, Enclosing(events, q), n - 1)
  {
  }

  lemma OutwardNone(events: seq<Event>, q: nat)
    requires q <= |events|
    ensures Outward(events, q, 0) == q
  {
  }

  lemma DeclaredIn(events: seq<Event>, states: seq<seq<Fn>>, t: nat, c: ObjClosure, a: nat)
    requires Run(events, states) && t <= |events| < |states| && ClosureOf(events, states, Owner(events, t), c)
    requires a < t && InScope(events, a, t)
    ensures 0 <= Functions(events, a) <= |c.env|
    ensures Outward(events, Owner(events, t), |c.env| - Functions(events, a)) == Owner(events, a)
  {
    hide InScope, Functions, Run, Outward, ClosureOf;
    DeclarerStays(events, states, a, t);
    RunFunctions(events, states, a);
    DeclarerAround(events, states, |states[a]| - 1, a, t);
    OwnerSpan(events, states, t);
    EnvLevel(events, states, Owner(events, t), c);
  }

  lemma EnvLevel(events: seq<Event>, states: seq<seq<Fn>>, q: nat, c: ObjClosure)
    requires Run(events, states) && ClosureOf(events, states, q, c)
    ensures q < |states| && |c.env| == Level(states, q)
  {
  }

  /** That activation is a call of the function around closure `i` at that level. */
  lemma {:induction false} SourceEntry(events: seq<Event>, states: seq<seq<Fn>>, closures: seq<ObjClosure>,
      origins: seq<Origin>, calls: seq<Activation>, history: seq<seq<nat>>, i: nat, level: nat)
    requires Run(events, states) && Lineage(events, states, closures, origins, calls, history)
    requires i < |closures| && level < |closures[i].env| && origins[i].entry <= |events|
    ensures var s := Source(events, states, closures, origins, calls, history, i, level);
            origins[calls[s.0].closure].entry == Outward(events, origins[i].entry, |closures[i].env| - level)
    decreases i
  {
    hide ClosureOf, Run, Enclosing;
    assert MadeBy(events, closures, origins, calls, history, i);
    var parent := calls[origins[i].maker].closure;
    if level < |closures[parent].env| {
      SourceEntry(events, states, closures, origins, calls, history, parent, level);
    } else {
      assert Outward(events, origins[i].entry, 1) == Outward(events, Enclosing(events, origins[i].entry), 0);
    }
  }

  lemma LineageFirst(events: seq<Event>, states: seq<seq<Fn>>, script: ObjClosure, history: seq<seq<nat>>)
    requires Complete(events, states) && script.upvalues == [] && script.env == []
    ensures Lineage(events, states, [script], [Origin(0, 0, 0)], [Activation(0, 0)], history)
  {
    hide ClosureOf;
    ScriptClosure(events, states, script);
  }

  lemma LineageMore(events: seq<Event>, states: seq<seq<Fn>>, closures: seq<ObjClosure>, origins: seq<Origin>,
      calls: seq<Activation>, history: seq<seq<nat>>, more: seq<Activation>, cells: seq<nat>)
    requires Run(events, states) && Lineage(events, states, closures, origins, calls, history)
    requires forall a :: 0 <= a < |more| ==> more[a].closure < |closures|
    ensures Lineage(events, states, closures, origins, calls + more, history + [cells])
  {
    hide ClosureOf;
    forall i | 0 < i < |closures|
      ensures MadeBy(events, closures, origins, calls + more, history + [cells], i)
    {
      assert MadeBy(events, closures, origins, calls, history, i);
    }
  }

  lemma LineageMade(events: seq<Event>, states: seq<seq<Fn>>, closures: seq<ObjClosure>, origins: seq<Origin>,
      calls: seq<Activation>, history: seq<seq<nat>>, c: ObjClosure, o: Origin, n: nat)
    requires Run(events, states) && Lineage(events, states, closures, origins, calls, history)
    requires ClosureOf(events, states, o.entry, c) && o.maker < |calls| && o.born < |history| && 0 < o.entry <= |events|
    requires origins[calls[o.maker].closure].entry == Enclosing(events, o.entry)
    requires var parent, slots := closures[calls[o.maker].closure], calls[o.maker].slots;
             slots + n <= |history[o.born]| && c.env == parent.env + [history[o.born][slots..slots + n]]
    ensures Lineage(events, states, closures + [c], origins + [o], calls, history)
  {
    hide ClosureOf, Enclosing;
    forall i | 0 < i < |closures| + 1
      ensures MadeBy(events, closures + [c], origins + [o], calls, history, i)
    {
      if i < |closures| { assert MadeBy(events, closures, origins, calls, history, i); }
    }
  }

  // ---- the frames ----

  /** Each frame begins above the one below it, and the uppermost has at least its slot zero. */
  predicate Stacked(frames: seq<nat>, calls: seq<Activation>, n: nat) {
    && frames != []
    && (forall f :: 0 <= f < |frames| ==> frames[f] < |calls| && calls[frames[f]].slots < n)
    && (forall f, g :: 0 <= f < g < |frames| ==> calls[frames[f]].slots < calls[frames[g]].slots)
  }

  lemma StackedHigher(frames: seq<nat>, calls: seq<Activation>, n: nat)
    requires Stacked(frames, calls, n)
    ensures Stacked(frames, calls, n + 1)
  {
  }

  ghost predicate Known(closures: seq<ObjClosure>, all: set<ObjUpvalue>) {
    forall i :: 0 <= i < |closures| ==> forall u :: u in closures[i].upvalues ==> u in all
  }

  lemma KnownMore(closures: seq<ObjClosure>, all: set<ObjUpvalue>, more: set<ObjUpvalue>)
    requires Known(closures, all) && all <= more
    ensures Known(closures, more)
  {
  }

  lemma KnownMade(closures: seq<ObjClosure>, all: set<ObjUpvalue>, c: ObjClosure)
    requires Known(closures, all) && forall u :: u in c.upvalues ==> u in all
    ensures Known(closures + [c], all)
  {
  }

  /** Any run of the machine: one frame for each call that has not returned, the innermost last. */
  class Execution {
    const vm: Vm
    const events: seq<Event>
    const states: seq<seq<Fn>>
    var closures: seq<ObjClosure>
    var calls: seq<Activation>
    var frames: seq<nat>
    ghost var origins: seq<Origin>
    ghost var history: seq<seq<nat>>
    ghost var closed: seq<nat>

    ghost predicate Valid()
      reads this, vm, vm.all
    {
      && vm.Valid() && Complete(events, states) && Known(closures, vm.all)
      && Lineage(events, states, closures, origins, calls, history)
      && Stacked(frames, calls, |vm.stack|)
      && Recorded(history, closed, vm.used) && history[|closed|] == vm.cells
    }

    function Running(): (a: Activation)
      requires frames != [] && frames[|frames| - 1] < |calls|
      reads this`frames, this`calls
    {
      calls[frames[|frames| - 1]]
    }

    constructor (events: seq<Event>, states: seq<seq<Fn>>, script: Value)
      requires Complete(events, states)
      ensures Valid() && fresh(vm) && this.events == events && this.states == states
      ensures vm.stack == [script] && |closures| == 1 && calls == [Activation(0, 0)] && frames == [0] && closed == []
    {
      hide Recorded, Lineage, Run, Vm.Valid, Complete;
      this.events, this.states := events, states;
      vm := new Vm();
      var main := new ObjClosure([], []);
      closures, calls, frames := [main], [Activation(0, 0)], [0];
      origins, closed, history := [Origin(0, 0, 0)], [], [[]];
      new;
      vm.Push(script);
      vm.CellsAre();
      RecordedFirst(vm.cells, vm.used);
      history := [vm.cells];
      LineageFirst(events, states, main, history);
    }

    /** The action has closed the slots from `last` on, and what was pushed since is new. */
    ghost method Record(last: nat, used: nat, more: seq<Activation>)
      requires vm.Valid() && Complete(events, states) && Known(closures, vm.all)
      requires Lineage(events, states, closures, origins, calls, history)
      requires forall a :: 0 <= a < |more| ==> more[a].closure < |closures|
      requires Recorded(history, closed, used) && used <= vm.used && last <= |history[|closed|]| && last <= |vm.cells|
      requires vm.cells[..last] == history[|closed|][..last] && forall q :: last <= q < |vm.cells| ==> vm.cells[q] >= used
      modifies this`history, this`closed
      ensures Lineage(events, states, closures, origins, calls + more, history)
      ensures history == old(history) + [vm.cells] && closed == old(closed) + [last]
      ensures Recorded(history, closed, vm.used) && history[|closed|] == vm.cells
    {
      hide Recorded, Lineage, Known, Vm.Valid;
      vm.CellsAre();
      RecordedMore(history, closed, used, last, vm.cells, vm.used);
      LineageMore(events, states, closures, origins, calls, history, more, vm.cells);
      history, closed := history + [vm.cells], closed + [last];
    }

    method Push(v: Value)
      requires Valid()
      modifies this`history, this`closed, vm
      ensures Valid() && vm.stack == old(vm.stack) + [v]
      ensures history == old(history) + [vm.cells] && closed == old(closed) + [|old(vm.cells)|]
      ensures vm.all == old(vm.all)
      ensures forall u :: u in old(vm.all) ==> vm.Read(u) == if u.location == |old(vm.stack)| then v else old(vm.Read(u))
    {
      hide Recorded, Lineage, Known, Vm.Valid, Run;
      ghost var used, cells := vm.used, vm.cells;
      vm.CellsAre();
      vm.Push(v);
      assert vm.cells[..|cells|] == cells;
      Record(|cells|, used, []);
      assert calls + [] == calls;
    }

    /** `POP`, in whatever context. */
    method Pop()
      requires Valid() && |vm.stack| - 1 > Running().slots
      modifies this`history, this`closed, vm
      ensures Valid() && vm.stack == old(vm.stack)[..|old(vm.stack)| - 1] && vm.cells == old(vm.cells)
      ensures history == old(history) + [vm.cells] && closed == old(closed) + [|old(vm.cells)|]
      ensures vm.all == old(vm.all) && forall u :: u in old(vm.all) ==> vm.Read(u) == old(vm.Read(u))
    {
      hide Recorded, Lineage, Known, Vm.Valid, Run;
      ghost var used, cells := vm.used, vm.cells;
      vm.CellsAre();
      vm.Pop();
      Record(|cells|, used, []);
      assert calls + [] == calls;
    }

    method GetLocal(slot: nat)
      requires Valid() && Running().slots + slot < |vm.stack|
      modifies this`history, this`closed, vm
      ensures Valid() && vm.stack == old(vm.stack) + [old(vm.stack[Running().slots + slot])]
      ensures history == old(history) + [vm.cells] && closed == old(closed) + [|old(vm.cells)|] && vm.all == old(vm.all)
      ensures forall u :: u in old(vm.all) ==>
        vm.Read(u) == if u.location == |old(vm.stack)| then vm.stack[|old(vm.stack)|] else old(vm.Read(u))
    {
      hide Recorded, Lineage, Known, Vm.Valid, Run;
      Push(vm.stack[Running().slots + slot]);
    }

    /** Seen through the upvalue of that variable, whoever holds it, and through no other. */
    method SetLocal(slot: nat, v: Value)
      requires Valid() && Running().slots + slot < |vm.stack|
      modifies this`history, this`closed, vm
      ensures Valid() && vm.stack == old(vm.stack)[old(Running().slots) + slot := v] && vm.cells == old(vm.cells)
      ensures history == old(history) + [vm.cells] && closed == old(closed) + [|old(vm.cells)|] && vm.all == old(vm.all)
      ensures forall u :: u in old(vm.all) ==>
        vm.Read(u) == if Is(vm.cells, old(Running().slots) + slot, u.cell) then v else old(vm.Read(u))
    {
      hide Recorded, Lineage, Known, Vm.Valid, Run;
      ghost var used, cells := vm.used, vm.cells;
      vm.CellsAre();
      vm.SetLocal(Running().slots + slot, v);
      Record(|cells|, used, []);
      assert calls + [] == calls;
    }

    method GetUpvalue(i: nat)
      requires Valid() && i < |closures[Running().closure].upvalues|
      modifies this`history, this`closed, vm
      ensures Valid() && vm.stack == old(vm.stack) + [old(vm.Read(closures[Running().closure].upvalues[i]))]
      ensures history == old(history) + [vm.cells] && closed == old(closed) + [|old(vm.cells)|] && vm.all == old(vm.all)
      ensures forall u :: u in old(vm.all) ==>
        vm.Read(u) == if u.location == |old(vm.stack)| then vm.stack[|old(vm.stack)|] else old(vm.Read(u))
    {
      hide Recorded, Lineage, Known, Vm.Valid, Run;
      RunningIs();
      var v := vm.GetUpvalue(closures[Running().closure].upvalues[i]);
      Push(v);
    }

    /** Written to the slot as long as the variable has one. */
    method SetUpvalue(i: nat, v: Value)
      requires Valid() && i < |closures[Running().closure].upvalues|
      modifies this`history, this`closed, vm, vm.all
      ensures Valid() && |vm.stack| == |old(vm.stack)| && vm.cells == old(vm.cells)
      ensures history == old(history) + [vm.cells] && closed == old(closed) + [|old(vm.cells)|] && vm.all == old(vm.all)
      ensures var u := old(closures[Running().closure]).upvalues[i];
              && (forall w :: w in old(vm.all) ==> vm.Read(w) == if w == u then v else old(vm.Read(w)))
              && (forall p :: 0 <= p < |vm.stack| ==> vm.stack[p] == if Is(vm.cells, p, u.cell) then v else old(vm.stack)[p])
    {
      hide Recorded, Lineage, Known, Vm.Valid, Run;
      ghost var used, cells := vm.used, vm.cells;
      vm.CellsAre();
      RunningIs();
      vm.SetUpvalue(closures[Running().closure].upvalues[i], v);
      Record(|cells|, used, []);
      assert calls + [] == calls;
    }

    method CloseUpvalue()
      requires Valid() && |vm.stack| - 1 > Running().slots
      modifies this`history, this`closed, vm, vm.all
      ensures Valid() && vm.stack == old(vm.stack)[..|old(vm.stack)| - 1] && vm.cells == old(vm.cells)[..|vm.stack|]
      ensures history == old(history) + [vm.cells] && closed == old(closed) + [|vm.stack|]
      ensures vm.all == old(vm.all) && forall u :: u in old(vm.all) ==> vm.Read(u) == old(vm.Read(u))
    {
      hide Recorded, Lineage, Known, Vm.Valid, Run;
      ghost var used, cells := vm.used, vm.cells;
      vm.CellsAre();
      vm.CloseUpvalue();
      assert vm.cells[..|vm.stack|] == cells[..|vm.stack|];
      Record(|vm.stack|, used, []);
      assert calls + [] == calls;
    }

    /** The callee lies below its `count` arguments; its frame begins there. */
    method Call(c: nat, count: nat)
      requires Valid() && c < |closures| && |vm.stack| - 1 - count > Running().slots
      modifies this`history, this`closed, this`calls, this`frames
      ensures Valid() && calls == old(calls) + [Activation(c, |vm.stack| - 1 - count)] && frames == old(frames) + [|old(calls)|]
      ensures history == old(history) + [vm.cells] && closed == old(closed) + [|old(vm.cells)|]
    {
      hide Recorded, Lineage, Known, Vm.Valid, Run;
      vm.CellsAre();
      var a := Activation(c, |vm.stack| - 1 - count);
      Record(|vm.cells|, vm.used, [a]);
      frames := frames + [|calls|];
      calls := calls + [a];
    }

    /** The frame's slots are closed; the result is pushed where they began. */
    method Return()
      requires Valid() && |frames| > 1
      modifies this`history, this`closed, this`frames, vm, vm.all
      ensures Valid() && frames == old(frames)[..|old(frames)| - 1]
      ensures vm.stack == old(vm.stack)[..old(Running().slots)] + [old(vm.stack)[|old(vm.stack)| - 1]]
      ensures history == old(history) + [vm.cells] && closed == old(closed) + [old(Running().slots)]
      ensures vm.all == old(vm.all) && forall u :: u in old(vm.all) ==> vm.Read(u) == old(vm.Read(u))
    {
      hide Recorded, Lineage, Known, Vm.Valid, Run;
      ghost var used, cells := vm.used, vm.cells;
      vm.CellsAre();
      var slots := Running().slots;
      vm.Return(slots);
      assert vm.cells[..slots] == cells[..slots];
      Record(slots, used, []);
      frames := frames[..|frames| - 1];
      assert calls + [] == calls;
    }

    /** The running closure is of the function around the one entered at `entry`, and its frame has the slots that the
        compiler counted there, or all but the one that the new closure is pushed to. */
    ghost predicate CanMake(entry: nat)
      requires Valid()
      reads this, vm, vm.all
    {
      && 0 < entry && Entered(events, entry) && Level(states, entry) > 0
      && origins[Running().closure].entry == Enclosing(events, entry)
      && |Final(events, states, entry)| > Level(states, entry)
      && Running().slots + |Final(events, states, entry)[Level(states, entry) - 1].locals| <= |vm.stack| + 1
    }

    /** `CLOSURE`: the variables of the new closure are those of the running one, and what the slots of the frame are. */
    method Make(entry: nat, v: Value)
      requires Valid() && CanMake(entry)
      modifies this`history, this`closed, this`closures, this`origins, vm, vm.all
      ensures Valid() && fresh(vm.all - old(vm.all)) && old(vm.all) <= vm.all && vm.stack == old(vm.stack) + [v]
      ensures |closures| == |old(closures)| + 1 && old(closures) <= closures
      ensures origins == old(origins) + [Origin(entry, frames[|frames| - 1], |history| - 1)]
      ensures history == old(history) + [vm.cells] && closed == old(closed) + [|old(vm.cells)|]
      ensures Captured(closures[|old(closures)|].upvalues, Final(events, states, entry)[Level(states, entry)].upvalues,
                       old(Running().slots), old(closures[Running().closure]).upvalues)
      ensures forall u :: u in old(vm.all) ==> vm.Read(u) == if u.location == |old(vm.stack)| then v else old(vm.Read(u))
    {
      hide ClosureOf, Faithful, Run, Captured, Lineage, Known, Recorded, Final, Last, Vm.Valid, Stacked, Entered, Enclosing, WellFormed;
      ghost var all, used, cells := vm.all, vm.used, vm.cells;
      RunningIs();
      var a := Running();
      MakerReady(entry);
      StackedHigher(frames, calls, |vm.stack|);
      StartLevel(events, states);
      var fns, k := Final(events, states, entry), Level(states, entry);
      vm.CellsAre();
      var closure := vm.MakeClosure(fns[k].upvalues, a.slots, closures[a.closure], v, fns, k);
      assert vm.cells[..|cells|] == cells;
      KnownMore(closures, all, vm.all);
      Record(|cells|, used, []);
      assert calls + [] == calls;
      Adopt(closure, entry, |fns[k - 1].locals|);
    }

    /** The new closure is entered, with where it comes from. */
    method Adopt(closure: ObjClosure, entry: nat, ghost n: nat)
      requires Valid() && 0 < entry && Entered(events, entry) && Level(states, entry) > 0
      requires Running().closure < |closures| && origins[Running().closure].entry == Enclosing(events, entry)
      requires ClosureOf(events, states, Enclosing(events, entry), closures[Running().closure])
      requires |Final(events, states, entry)| > Level(states, entry) && Faithful(closure, Final(events, states, entry), Level(states, entry))
      requires n == |Final(events, states, entry)[Level(states, entry) - 1].locals| && Running().slots + n <= |vm.cells|
      requires closure.env == closures[Running().closure].env + [vm.cells[Running().slots..Running().slots + n]]
      requires forall u :: u in closure.upvalues ==> u in vm.all
      modifies this`closures, this`origins
      ensures Valid() && closures == old(closures) + [closure]
      ensures origins == old(origins) + [Origin(entry, frames[|frames| - 1], |history| - 1)]
    {
      hide ClosureOf, Faithful, Run, Lineage, Known, Recorded, Final, Last, Vm.Valid, Enclosing;
      var a := Running();
      RecordedLast(history, closed, vm.used);
      NewClosure(events, states, entry, closures[a.closure], closure, vm.cells[a.slots..a.slots + n]);
      var o := Origin(entry, frames[|frames| - 1], |history| - 1);
      LineageMade(events, states, closures, origins, calls, history, closure, o, n);
      KnownMade(closures, vm.all, closure);
      closures, origins := closures + [closure], origins + [o];
    }

    lemma RunningIs()
      requires Valid()
      ensures frames != [] && frames[|frames| - 1] < |calls|
      ensures Running().closure < |closures| && forall u :: u in closures[Running().closure].upvalues ==> u in vm.all
    {
    }

    lemma MakerReady(entry: nat)
      requires Valid() && CanMake(entry)
      ensures entry <= |events|
      ensures var k := Level(states, entry);
              var fns := Final(events, states, entry);
              var parent := closures[Running().closure];
              && 0 < k && |fns| == k + 1 && Faithful(parent, fns, k - 1)
              && (forall u :: u in parent.upvalues ==> u in vm.all)
              && ClosureOf(events, states, Enclosing(events, entry), parent)
    {
      hide Faithful, Run;
      ParentFaithful(events, states, entry, closures[Running().closure]);
    }

    // ---- what closures reach ----

    /** Upvalue `u` is for the variable that slot `place` was at time `at`. As long as the slot has not been closed since it
        is open and reads what the slot holds; from then on it is closed. */
    ghost predicate StandsFor(u: ObjUpvalue, place: nat, at: nat)
      reads this, vm, vm.all, u
    {
      && u in vm.all && at < |history| && Is(history[at], place, u.cell)
      && (u.location >= 0 <==> Untouched(closed, at, |closed|, place))
      && (u.location >= 0 ==>
            && u.location == place < |vm.stack| + |vm.stale| && Is(vm.cells, place, u.cell)
            && vm.Read(u) == if place < |vm.stack| then vm.stack[place] else vm.stale[place - |vm.stack|])
    }

    lemma UpvalueStands(u: ObjUpvalue, place: nat, at: nat)
      requires Valid() && u in vm.all && at < |history| && Is(history[at], place, u.cell)
      ensures StandsFor(u, place, at)
    {
      hide Lineage, Known, Vm.Valid, Run, Stacked;
      vm.CellsAre();
      assert StaysPut(history[|closed|], place, history[at][place]);
      assert Is(history[|closed|], place, history[at][place]) <==> Untouched(closed, at, |closed|, place);
    }

    /** A name read or assigned at time `t` of compiling, not declared in the innermost function, and any closure of that
        function: the name is an upvalue if and only if some declaration of it is in scope. The upvalue stands for the slot of
        the last one, in the frame of the call of the function it stands in that the closure was made in. */
    lemma Reaches(t: nat, i: nat)
      requires Valid() && t < |events| && Mentions(events[t])
      requires var a := Latest(events, events[t].name, t, t); a.Some? ==> a.value !in Here(events, t)
      requires i < |closures| && origins[i].entry == Owner(events, t)
      ensures |states| > t && states[t] != []
      ensures var a := Latest(events, events[t].name, t, t);
              var index := Resolve(states[t], events[t].name).index;
              && (index == -1 <==> a.None?)
              && (a.Some? ==>
                    && 0 <= index < |closures[i].upvalues| && 0 <= Functions(events, a.value) < |closures[i].env|
                    && var d := Place(events, a.value);
                       var s := Source(events, states, closures, origins, calls, history, i, d.level);
                       && StandsFor(closures[i].upvalues[index], calls[s.0].slots + d.slot, s.1)
                       && origins[calls[s.0].closure].entry == Owner(events, a.value))
    {
      hide Latest, Here, Functions, InScope, Resolve, Run, Recorded, Vm.Valid, Stacked, ClosureOf, StandsFor, Outward;
      StartLevel(events, states);
      var name, c := events[t].name, closures[i];
      var a := Latest(events, name, t, t);
      assert ClosureOf(events, states, Owner(events, t), c);
      AccessByEvents(events, states, t, c);
      if a.Some? {
        var u, d := c.upvalues[Resolve(states[t], name).index], Place(events, a.value);
        SourceIs(events, states, closures, origins, calls, history, i, d.level, d.slot);
        SourceEntry(events, states, closures, origins, calls, history, i, d.level);
        assert u in vm.all;
        var s := Source(events, states, closures, origins, calls, history, i, d.level);
        UpvalueStands(u, calls[s.0].slots + d.slot, s.1);
        DeclaredIn(events, states, t, c, a.value);
      }
    }

    /** Closures made in one call share the upvalue of a variable, if the slot was not closed between them; otherwise it
        was another variable by then. */
    lemma SharedIffUntouched(u: ObjUpvalue, w: ObjUpvalue, place: nat, at: nat, later: nat)
      requires Valid() && at <= later && StandsFor(u, place, at) && StandsFor(w, place, later)
      ensures u == w <==> Untouched(closed, at, later, place)
    {
      hide Lineage, Known, Run, Stacked;
      assert Is(history[later], place, history[at][place]) <==> Untouched(closed, at, later, place);
    }

    /** A closure made inside an initialiser has captured what the slot of the variable was then. It is the variable that
        the slot is when the initialiser has ended, at time `end`, if and only if the slot was not closed in between: no
        call whose callee was pushed there, or below, has returned. */
    lemma InitialiserKeeps(u: ObjUpvalue, place: nat, at: nat, end: nat)
      requires Valid() && at <= end < |history| && StandsFor(u, place, at)
      ensures StandsFor(u, place, end) <==> Untouched(closed, at, end, place)
    {
      hide Lineage, Known, Run, Stacked, Vm.Valid;
      assert Is(history[end], place, history[at][place]) <==> Untouched(closed, at, end, place);
      if Untouched(closed, at, end, place) {
        assert Untouched(closed, at, |closed|, place) <==> Untouched(closed, end, |closed|, place);
      }
    }

    // ---- any action ----

    ghost predicate Enabled(a: Action)
      requires Valid()
      reads this, vm, vm.all
    {
      match a
      case DoPush(_) => true
      case DoPop => |vm.stack| - 1 > Running().slots
      case DoGetLocal(slot) => Running().slots + slot < |vm.stack|
      case DoSetLocal(slot, _) => Running().slots + slot < |vm.stack|
      case DoGetUpvalue(i) => i < |closures[Running().closure].upvalues|
      case DoSetUpvalue(i, _) => i < |closures[Running().closure].upvalues|
      case DoCloseUpvalue => |vm.stack| - 1 > Running().slots
      case DoCall(c, count) => c < |closures| && |vm.stack| - 1 - count > Running().slots
      case DoReturn => |frames| > 1
      case DoMake(entry, _) => CanMake(entry)
    }

    /** The lowest slot that an action closes; all there are lie below it if it closes none. */
    ghost function Closes(a: Action): nat
      requires Valid() && Enabled(a)
      reads this, vm, vm.all
    {
      match a
      case DoCloseUpvalue => |vm.stack| - 1
      case DoReturn => Running().slots
      case _ => |vm.cells|
    }

    /** Whatever is done, closures stay what they are, and a slot is closed only by CLOSE_UPVALUE of it and by RETURN from a
        frame that begins there or below. */
    method Perform(a: Action)
      requires Valid() && Enabled(a)
      modifies this, vm, vm.all
      ensures Valid() && fresh(vm.all - old(vm.all)) && old(vm.all) <= vm.all
      ensures old(closures) <= closures && old(origins) <= origins && old(calls) <= calls
      ensures history == old(history) + [vm.cells] && closed == old(closed) + [old(Closes(a))]
      ensures a.DoReturn? || a.DoPop? || a.DoCloseUpvalue? ==>
        forall u :: u in old(vm.all) ==> vm.Read(u) == old(vm.Read(u))
    {
      hide Recorded, Lineage, Known, Vm.Valid, Run, Stacked, CanMake;
      match a
      case DoPush(v) => Push(v);
      case DoPop => Pop();
      case DoGetLocal(slot) => GetLocal(slot);
      case DoSetLocal(slot, v) => SetLocal(slot, v);
      case DoGetUpvalue(i) => GetUpvalue(i);
      case DoSetUpvalue(i, v) => SetUpvalue(i, v);
      case DoCloseUpvalue => CloseUpvalue();
      case DoCall(c, count) => Call(c, count);
      case DoReturn => Return();
      case DoMake(entry, v) => Make(entry, v);
    }
  }

  datatype Action =
    | DoPush(v: Value)
    | DoPop
    | DoGetLocal(slot: nat)
    | DoSetLocal(slot: nat, v: Value)
    | DoGetUpvalue(i: nat)
    | DoSetUpvalue(i: nat, v: Value)
    | DoCloseUpvalue
    | DoCall(closure: nat, count: nat)
    | DoReturn
    | DoMake(entry: nat, v: Value)

  // ---- a closure in the initialiser of the variable it captures ----

  /** `var f = id(def () => f);` as the first local of the script: `id` lies in the slot of `f` while the closure captures
      that slot, and its RETURN closes it. The `f` of the closure is another variable, with `id` in it. */
  method InitialiserUnderCall(script: Value, id: Value, f: Value) returns (vm: Vm, captured: ObjUpvalue)
    ensures vm.Valid() && captured in vm.all && vm.stack == [script, f]
    ensures vm.Read(captured) == id && captured.location < 0 && !Is(vm.cells, 1, captured.cell)
  {
    hide Vm.Valid;
    vm := new Vm();
    vm.Push(script);
    vm.Push(id);
    vm.Push(f);
    captured := vm.CaptureUpvalue(1);
    vm.CellsAre();
    vm.Return(1);
    vm.CellsAre();
  }

  /** `var f = (def () => f) and 5;`: the closure is popped although its own slot is captured, and 5 takes its place; the
      captured variable is `f` all the same. */
  method InitialiserUnderAnd(script: Value, f: Value, five: Value) returns (vm: Vm, captured: ObjUpvalue)
    ensures vm.Valid() && captured in vm.all && vm.stack == [script, five]
    ensures vm.Read(captured) == five && captured.location == 1 && Is(vm.cells, 1, captured.cell)
  {
    hide Vm.Valid;
    vm := new Vm();
    vm.Push(script);
    vm.Push(f);
    captured := vm.CaptureUpvalue(1);
    vm.Pop();
    vm.Push(five);
    vm.CellsAre();
  }
}
