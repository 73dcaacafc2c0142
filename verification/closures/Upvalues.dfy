/** Captured variables at run time. An open upvalue points to a stack slot, whatever is pushed there; it is closed, and
    takes the value over, when the slot goes away by CLOSE_UPVALUE or RETURN. A plain POP leaves it open. */
module Upvalues {
  import Values
  import opened Resolution

  type Value = Values.Value

  class ObjUpvalue {
    /** The stack slot, or -1 once closed. */
    var location: int
    var closed: Value
    var next: ObjUpvalue?
    /** The variable this upvalue stands for. */
    ghost const cell: nat

    constructor (slot: nat, ghost cell: nat)
      ensures location == slot && this.cell == cell && next == null
    {
      location, closed, next := slot, Values.Nil, null;
      this.cell := cell;
    }
  }

  /** A function value; `env` gives, for each enclosing function, the variables of the activation the
      closure was created under. */
  class ObjClosure {
    const upvalues: seq<ObjUpvalue>
    ghost const env: seq<seq<nat>>

    constructor (upvalues: seq<ObjUpvalue>, ghost env: seq<seq<nat>>)
      ensures this.upvalues == upvalues && this.env == env
    {
      this.upvalues, this.env := upvalues, env;
    }
  }

  class Vm {
    var stack: seq<Value>
    /** What lies above the top of the stack: popped values that nothing has overwritten yet. */
    var stale: seq<Value>
    var openUpvalues: ObjUpvalue?
    /** The variable each slot is, above the top too. A slot becomes another variable when upvalues are closed from there
        or from below; what is pushed and popped in between is the same variable with another value. */
    ghost var cells: seq<nat>
    ghost var used: nat
    /** The open list, and all upvalues ever made. */
    ghost var open: seq<ObjUpvalue>
    ghost var all: set<ObjUpvalue>

    ghost predicate Valid()
      reads this, all
    {
      Shape(|stack| + |stale|)
    }

    /** Which upvalues are open, and on which of the `n` stack slots. */
    ghost predicate Shape(n: nat)
      reads this`openUpvalues, this`cells, this`used, this`open, this`all, all`location, all`next
    {
      |cells| == n && (forall u :: u in open ==> u in all) && Linked() && Sorted(open, n) && Owned(all, open, cells, used, n)
    }

    /** The open list is linked through `next`. */
    ghost predicate Linked()
      reads this`openUpvalues, this`open, open`next
    {
      && openUpvalues == At(open, 0)
      && forall i :: 0 <= i < |open| ==> open[i].next == Next(open, i)
    }

    /** What an upvalue reads as. */
    ghost function Read(u: ObjUpvalue): Value
      reads this`stack, this`stale, u`location, u`closed
    {
      if 0 <= u.location < |stack| then stack[u.location]
      else if |stack| <= u.location < |stack| + |stale| then stale[u.location - |stack|]
      else u.closed
    }

    constructor ()
      ensures Valid() && stack == [] && stale == [] && cells == [] && used == 0 && all == {}
    {
      stack, stale, openUpvalues := [], [], null;
      cells, used, open, all := [], 0, [], {};
    }

    // ---- what the invariant says about a variable ----

    /** An upvalue and a stack slot stand for the same variable exactly if the upvalue points there. */
    lemma SameVariable(u: ObjUpvalue, slot: nat, n: nat)
      requires |cells| == n && Owned(all, open, cells, used, n) && u in all && slot < n
      ensures (u.cell == cells[slot] <==> u.location == slot) && u.location < n
    {
      assert cells[..n] == cells;
    }

    /** No two slots are the same variable, and an upvalue is open exactly as long as its variable is a slot. */
    lemma CellsAre()
      requires Valid()
      ensures |cells| == |stack| + |stale|
      ensures forall i :: 0 <= i < |cells| ==> cells[i] < used
      ensures forall i, j :: 0 <= i < j < |cells| ==> cells[i] != cells[j]
      ensures forall u, i :: u in all && 0 <= i < |cells| && cells[i] == u.cell ==> u.location == i
      ensures forall u :: u in all && u.location >= 0 ==> u.location < |cells| && cells[u.location] == u.cell
    {
      assert cells[..|cells|] == cells;
    }

    lemma OnePerSlot(u: ObjUpvalue, w: ObjUpvalue, n: nat)
      requires |cells| == n && Owned(all, open, cells, used, n) && u in all && w in all && u.location == w.location >= 0
      ensures u == w
    {
    }

    /** The slot is written, whatever was captured there before. */
    method Push(v: Value)
      requires Valid()
      modifies this`stack, this`stale, this`cells, this`used
      ensures Valid() && stack == old(stack) + [v] && stale == (if old(stale) == [] then [] else old(stale)[1..])
      ensures cells == (if old(stale) == [] then old(cells) + [old(used)] else old(cells)) && used >= old(used)
      ensures forall u :: u in all ==> Read(u) == if u.location == |old(stack)| then v else old(Read(u))
    {
      hide Linked, Sorted, Owned;
      forall u | u in all
        ensures u.location < |stack| + |stale|
      {
        SlotOnStack(u, |stack| + |stale|);
      }
      if stale == [] {
        PushOwned(all, open, cells, used);
        SortedLarger(open, |stack|);
        cells := cells + [used];
        used := used + 1;
      } else {
        stale := stale[1..];
      }
      stack := stack + [v];
    }

    /** `POP` in whatever context: the value stays where it is, above the top of the stack. */
    method Pop()
      requires Valid() && stack != []
      modifies this`stack, this`stale
      ensures Valid() && stack == old(stack)[..|old(stack)| - 1] && stale == [old(stack)[|stack|]] + old(stale)
      ensures forall u :: u in all ==> Read(u) == old(Read(u))
    {
      hide Linked, Sorted, Owned;
      stale := [stack[|stack| - 1]] + stale;
      stack := stack[..|stack| - 1];
    }

    /** Assigning a local is seen through the upvalue of that variable and through no other. */
    method SetLocal(slot: nat, v: Value)
      requires Valid() && slot < |stack|
      modifies this`stack
      ensures Valid() && stack == old(stack)[slot := v]
      ensures forall u :: u in all ==> Read(u) == if u.cell == cells[slot] then v else old(Read(u))
    {
      hide Linked, Sorted, Owned;
      forall u | u in all
        ensures u.cell == cells[slot] <==> u.location == slot
      {
        SameVariable(u, slot, |stack| + |stale|);
      }
      stack := stack[slot := v];
    }

    method GetUpvalue(u: ObjUpvalue) returns (v: Value)
      requires Valid() && u in all
      ensures v == Read(u)
    {
      SlotOnStack(u, |stack| + |stale|);
      v := if u.location < 0 then u.closed
           else if u.location < |stack| then stack[u.location] else stale[u.location - |stack|];
    }

    method SetUpvalue(u: ObjUpvalue, v: Value)
      requires Valid() && u in all
      modifies this`stack, this`stale, u`closed
      ensures Valid()
      ensures forall w :: w in all ==> Read(w) == if w == u then v else old(Read(w))
      ensures |stack| == |old(stack)| && |stale| == |old(stale)|
      ensures forall i :: 0 <= i < |stack| ==> stack[i] == if u.cell == cells[i] then v else old(stack)[i]
    {
      hide Linked, Sorted, Owned;
      forall i | 0 <= i < |stack|
        ensures u.cell == cells[i] <==> u.location == i
      {
        SameVariable(u, i, |stack| + |stale|);
      }
      forall w | w in all && w.location == u.location >= 0
        ensures w == u
      {
        OnePerSlot(u, w, |stack| + |stale|);
      }
      SlotOnStack(u, |stack| + |stale|);
      if u.location < 0 {
        u.closed := v;
      } else if u.location < |stack| {
        stack := stack[u.location := v];
      } else {
        stale := stale[u.location - |stack| := v];
      }
    }

    lemma SlotOnStack(u: ObjUpvalue, n: nat)
      requires |cells| == n && Owned(all, open, cells, used, n) && u in all
      ensures u.location < n
    {
    }

    /** The open upvalue of a slot: the one there is, or a new one linked in at its place. */
    method CaptureUpvalue(slot: nat) returns (u: ObjUpvalue)
      requires Valid() && slot < |stack|
      modifies this`openUpvalues, this`open, this`all, all`next
      ensures Valid() && u in all && u.cell == cells[slot] && u.location == slot
      ensures all == old(all) || (fresh(u) && all == old(all) + {u})
    {
      hide Owned, Linked, Sorted;
      var prevUpvalue, upvalue;
      ghost var i;
      prevUpvalue, upvalue, i := FindPlace(slot);
      if upvalue != null && upvalue.location == slot {
        SameVariable(upvalue, slot, |stack| + |stale|);
        return upvalue;
      }
      u := CreateUpvalue(slot, prevUpvalue, upvalue, i);
    }

    method CreateUpvalue(slot: nat, prevUpvalue: ObjUpvalue?, upvalue: ObjUpvalue?, ghost i: nat) returns (u: ObjUpvalue)
      requires Valid() && slot < |stack|
      requires i <= |open| && upvalue == At(open, i) && prevUpvalue == (if i == 0 then null else open[i - 1])
      requires forall j :: 0 <= j < |open| ==> if j < i then open[j].location > slot else open[j].location < slot
      modifies this`openUpvalues, this`open, this`all, all`next
      ensures Valid() && fresh(u) && all == old(all) + {u} && u.cell == cells[slot] && u.location == slot
    {
      hide Owned, Linked, Sorted, Distinct, Inserted;
      ghost var list, n := open, |stack| + |stale|;
      NotYetCaptured(all, open, cells, used, slot);
      SortedTail(open, n);
      u := new ObjUpvalue(slot, cells[slot]);
      Link(u, prevUpvalue, upvalue, i);
      SortedMore(list, u, i, n);
      OwnedMore(old(all), list, cells, used, u, i);
      InsertedIn(list, u, i);
    }

    /** Walks down to the first upvalue at or below the slot. */
    method FindPlace(slot: nat) returns (prevUpvalue: ObjUpvalue?, upvalue: ObjUpvalue?, ghost i: nat)
      requires Linked() && Sorted(open, |stack| + |stale|)
      ensures i <= |open| && upvalue == At(open, i) && prevUpvalue == (if i == 0 then null else open[i - 1])
      ensures forall j :: 0 <= j < |open| ==> if j < i then open[j].location > slot else open[j].location <= slot
      ensures forall j :: i < j < |open| ==> open[j].location < slot
    {
      hide Sorted;
      i := 0;
      prevUpvalue := null;
      upvalue := openUpvalues;
      while upvalue != null && upvalue.location > slot
        invariant 0 <= i <= |open| && upvalue == At(open, i) && prevUpvalue == (if i == 0 then null else open[i - 1])
        invariant forall j :: 0 <= j < i ==> open[j].location > slot
        decreases |open| - i
      {
        prevUpvalue := upvalue;
        upvalue := upvalue.next;
        i := i + 1;
      }
      Below(open, |stack| + |stale|, slot, i);
    }

    /** Links a new upvalue in between `prevUpvalue` and `upvalue`. */
    method Link(created: ObjUpvalue, prevUpvalue: ObjUpvalue?, upvalue: ObjUpvalue?, ghost i: nat)
      requires Linked() && created !in all && (forall u :: u in open ==> u in all) && Distinct(open)
      requires i <= |open| && upvalue == At(open, i) && prevUpvalue == (if i == 0 then null else open[i - 1])
      modifies this`openUpvalues, this`open, this`all, all`next, created`next
      ensures Linked() && all == old(all) + {created} && open == Inserted(old(open), created, i)
    {
      ghost var before := open;
      created.next := upvalue;
      if prevUpvalue == null {
        openUpvalues := created;
      } else {
        prevUpvalue.next := created;
      }
      InsertedLinks(before, created, i);
      open := Inserted(before, created, i);
      all := all + {created};
      LinkedIs();
    }

    lemma InsertedLinks(before: seq<ObjUpvalue>, created: ObjUpvalue, i: nat)
      requires i <= |before| && created.next == At(before, i)
      requires forall j :: 0 <= j < |before| ==> before[j].next == if j == i - 1 then created else Next(before, j)
      ensures var list := Inserted(before, created, i); forall j :: 0 <= j < |list| ==> list[j].next == Next(list, j)
    {
      var list := Inserted(before, created, i);
      forall j | 0 <= j < |list|
        ensures list[j].next == Next(list, j)
      {
        if j < i { assert list[j] == before[j]; }
        if j > i { assert list[j] == before[j - 1]; }
      }
    }

    // ---- closing ----

    /** Closes every open upvalue of the slots from `last` on, which are about to go away. */
    method CloseUpvalues(last: nat)
      requires Valid() && last <= |stack|
      modifies this`openUpvalues, this`open, this`cells, all`location, all`closed
      ensures Shape(last) && cells == old(cells)[..last]
      ensures forall u :: u in all ==> Read(u) == old(Read(u)) && u.location == if old(u.location) >= last then -1 else old(u.location)
    {
      hide Owned, Linked, Sorted, Read;
      ghost var n := |stack| + |stale|;
      OwnedWeaken(all, open, cells, used, last);
      LinkedTail();
      while openUpvalues != null && openUpvalues.location >= last
        invariant cells == old(cells) && openUpvalues == At(open, 0)
        invariant Linked() && Sorted(open, n) && (forall u :: u in open ==> u in all)
        invariant Owned(all, open, cells, used, last)
        invariant forall u :: u in all ==> Read(u) == old(Read(u))
        invariant forall u :: u in all ==> u.location == old(u.location) || (u.location == -1 && old(u.location) >= last)
        decreases |open|
      {
        CloseFirst(last, n);
        LinkedTail();
      }
      OwnedCut(all, open, cells, used, last, n);
      SortedCut(open, n, last);
      cells := cells[..last];
    }

    /** Moves the value of the uppermost open upvalue into it and takes it off the list. */
    method CloseFirst(ghost last: nat, ghost n: nat)
      requires Linked() && Sorted(open, n) && (forall u :: u in open ==> u in all) && Owned(all, open, cells, used, last)
      requires openUpvalues != null && openUpvalues.location >= last && openUpvalues in all && n == |stack| + |stale|
      modifies this`openUpvalues, this`open, openUpvalues`location, openUpvalues`closed
      ensures Linked() && Sorted(open, n) && open == old(open)[1..] && Owned(all, open, cells, used, last)
      ensures old(openUpvalues).location == -1
      ensures forall u :: u in all ==> Read(u) == old(Read(u))
    {
      hide Linked, Sorted, Owned, Read;
      LinkedTail();
      SortedTail(open, n);
      ghost var before := open;
      var upvalue := openUpvalues;
      Settle(upvalue, last);
      openUpvalues := upvalue.next;
      open := open[1..];
      LinkedIs();
      assert before == [upvalue] + open;
    }

    /** The upvalue takes over the value it points to. */
    method Settle(upvalue: ObjUpvalue, ghost last: nat)
      requires open != [] && upvalue == open[0] && upvalue in all && last <= upvalue.location < |stack| + |stale|
      requires Owned(all, open, cells, used, last)
      modifies upvalue`location, upvalue`closed
      ensures upvalue.location == -1 && Read(upvalue) == old(Read(upvalue))
      ensures Owned(all, open[1..], cells, used, last)
    {
      ClosedOwned(all, open, cells, used, last);
      upvalue.closed := if upvalue.location < |stack| then stack[upvalue.location] else stale[upvalue.location - |stack|];
      upvalue.location := -1;
      assert open == [upvalue] + open[1..];
    }

    lemma LinkedTail()
      requires Linked()
      ensures openUpvalues == At(open, 0)
      ensures open != [] ==>
                open[0].next == At(open[1..], 0) && forall i :: 0 <= i < |open[1..]| ==> open[1..][i].next == Next(open[1..], i)
    {
    }

    lemma LinkedIs()
      requires openUpvalues == At(open, 0) && forall i :: 0 <= i < |open| ==> open[i].next == Next(open, i)
      ensures Linked()
    {
    }

    // ---- instructions ----

    /** `CLOSE_UPVALUE`: the uppermost variable goes away; closures that captured it keep its value. */
    method CloseUpvalue()
      requires Valid() && stack != []
      modifies this`stack, this`stale, this`openUpvalues, this`open, this`cells, all`location, all`closed
      ensures Valid() && stack == old(stack)[..|old(stack)| - 1] && stale == [] && cells == old(cells)[..|stack|]
      ensures forall u :: u in all ==> Read(u) == old(Read(u))
      ensures forall u :: u in all ==> u.location == if old(u.location) >= |stack| then -1 else old(u.location)
    {
      Discard(|stack| - 1);
    }

    /** Closes what is captured from slot `last` on and drops those slots. */
    method Discard(last: nat)
      requires Valid() && last <= |stack|
      modifies this`stack, this`stale, this`openUpvalues, this`open, this`cells, all`location, all`closed
      ensures Valid() && stack == old(stack)[..last] && stale == [] && cells == old(cells)[..last]
      ensures forall u :: u in all ==> Read(u) == old(Read(u))
      ensures forall u :: u in all ==> u.location == if old(u.location) >= last then -1 else old(u.location)
    {
      hide Linked, Sorted, Owned;
      CloseUpvalues(last);
      forall u | u in all
        ensures u.location < last
      {
        SlotOnStack(u, last);
      }
      stack, stale := stack[..last], [];
    }

    /** `RETURN`: the slots of the frame go away and the result takes their place. */
    method Return(slots: nat)
      requires Valid() && slots < |stack|
      modifies this`stack, this`stale, this`openUpvalues, this`open, this`cells, this`used, all`location, all`closed
      ensures Valid() && stack == old(stack)[..slots] + [old(stack)[|old(stack)| - 1]] && stale == [] && used >= old(used)
      ensures cells == old(cells)[..slots] + [old(used)]
      ensures forall u :: u in all ==> Read(u) == old(Read(u))
      ensures forall u :: u in all ==> u.location == if old(u.location) >= slots then -1 else old(u.location)
    {
      hide Linked, Sorted, Owned;
      var result := stack[|stack| - 1];
      Discard(slots);
      Push(result);
    }

    /** One pair of `CLOSURE`: a slot of the running frame, or an upvalue of the running closure. */
    method CapturePair(r: Ref, slots: nat, outer: seq<ObjUpvalue>) returns (u: ObjUpvalue)
      requires Valid() && forall w :: w in outer ==> w in all
      requires if r.isLocal then slots + r.index < |stack| else r.index < |outer|
      modifies this`openUpvalues, this`open, this`all, all`next
      ensures Valid() && u in all && old(all) <= all && fresh(all - old(all))
      ensures if r.isLocal then u.cell == cells[slots + r.index] && u.location == slots + r.index
              else u == outer[r.index]
    {
      hide Owned, Linked, Sorted;
      if r.isLocal {
        u := CaptureUpvalue(slots + r.index);
      } else {
        u := outer[r.index];
      }
    }

    /** `CLOSURE`: makes a closure of the function at nesting level `k`, executed by an activation of the
        function around it whose frame starts at `slots` and whose closure is `parent`. The closure is on the
        stack before it captures, so its own slot may be among what it captures. */
    method MakeClosure(refs: seq<Ref>, slots: nat, parent: ObjClosure, v: Value, ghost fns: seq<Fn>, ghost k: nat)
      returns (closure: ObjClosure)
      requires Valid() && 0 < k < |fns| && refs == fns[k].upvalues
      requires Faithful(parent, fns, k - 1) && (forall u :: u in parent.upvalues ==> u in all)
      requires slots + |fns[k - 1].locals| <= |stack| + 1
      modifies this`stack, this`stale, this`openUpvalues, this`open, this`all, this`cells, this`used, all`next
      ensures Valid() && fresh(closure) && old(all) <= all && fresh(all - old(all))
      ensures stack == old(stack) + [v] && stale == (if old(stale) == [] then [] else old(stale)[1..])
      ensures cells == (if old(stale) == [] then old(cells) + [old(used)] else old(cells)) && used >= old(used)
      ensures slots + |fns[k - 1].locals| <= |cells| && closure.env == parent.env + [cells[slots..slots + |fns[k - 1].locals|]]
      ensures Faithful(closure, fns, k) && forall u :: u in closure.upvalues ==> u in all
      ensures Captured(closure.upvalues, refs, slots, parent.upvalues)
      ensures forall u :: u in old(all) ==> Read(u) == if u.location == |old(stack)| then v else old(Read(u))
    {
      hide Owned, Linked, Sorted, Means, Captured, WellFormed, Meaning;
      Push(v);
      ghost var env := parent.env + [cells[slots..slots + |fns[k - 1].locals|]];
      var captured := CapturePairs(refs, slots, parent, env, fns, k);
      assert captured[..|fns[k].upvalues|] == captured;
      closure := new ObjClosure(captured, env);
    }

    method CapturePairs(refs: seq<Ref>, slots: nat, parent: ObjClosure, ghost env: seq<seq<nat>>, ghost fns: seq<Fn>, ghost k: nat)
      returns (captured: seq<ObjUpvalue>)
      requires Valid() && 0 < k < |fns| && refs == fns[k].upvalues
      requires Faithful(parent, fns, k - 1) && (forall u :: u in parent.upvalues ==> u in all)
      requires slots + |fns[k - 1].locals| <= |stack| && env == parent.env + [cells[slots..slots + |fns[k - 1].locals|]]
      modifies this`openUpvalues, this`open, this`all, all`next
      ensures Valid() && old(all) <= all && fresh(all - old(all)) && (forall u :: u in captured ==> u in all)
      ensures |captured| == |refs| && Means(env, fns, k, captured) && Captured(captured, refs, slots, parent.upvalues)
    {
      hide Owned, Linked, Sorted, Means, Captured, WellFormed, Meaning;
      var outer := parent.upvalues;
      captured := [];
      NothingCaptured(env, fns, k, captured, refs, slots, outer);
      for i := 0 to |refs|
        invariant Valid() && old(all) <= all && fresh(all - old(all)) && |captured| == i
        invariant (forall u :: u in captured ==> u in all) && forall u :: u in outer ==> u in all
        invariant Means(env, fns, k, captured) && Captured(captured, refs[..i], slots, outer)
      {
        RefMeans(fns, k, i, parent, cells[slots..slots + |fns[k - 1].locals|]);
        var u := CapturePair(refs[i], slots, outer);
        OneMoreCaptured(env, fns, k, captured, u, refs, i, slots, outer);
        captured := captured + [u];
      }
      assert refs[..|refs|] == refs;
    }
  }

  /** The upvalues `us` stand for the variables that the compiler meant by them, among the variables `env` of the
      enclosing activations. */
  ghost predicate Means(env: seq<seq<nat>>, fns: seq<Fn>, k: nat, us: seq<ObjUpvalue>)
    requires WellFormed(fns) && k < |fns|
  {
    |us| <= |fns[k].upvalues| && forall i :: 0 <= i < |us| ==> Denotes(env, Meaning(fns, k, i), us[i].cell)
  }

  /** Each upvalue is what its pair says. */
  ghost predicate Captured(us: seq<ObjUpvalue>, refs: seq<Ref>, slots: nat, outer: seq<ObjUpvalue>)
    reads us`location
  {
    |us| == |refs| && forall i :: 0 <= i < |us| ==>
      if refs[i].isLocal then us[i].location == slots + refs[i].index
      else refs[i].index < |outer| && us[i] == outer[refs[i].index]
  }

  lemma NothingCaptured(env: seq<seq<nat>>, fns: seq<Fn>, k: nat, none: seq<ObjUpvalue>, refs: seq<Ref>, slots: nat,
      outer: seq<ObjUpvalue>)
    requires WellFormed(fns) && k < |fns| && none == []
    ensures Means(env, fns, k, none) && Captured(none, refs[..0], slots, outer)
  {
  }

  lemma OneMoreCaptured(env: seq<seq<nat>>, fns: seq<Fn>, k: nat, us: seq<ObjUpvalue>, u: ObjUpvalue, refs: seq<Ref>, i: nat,
      slots: nat, outer: seq<ObjUpvalue>)
    requires WellFormed(fns) && k < |fns| && i < |refs| == |fns[k].upvalues| && |us| == i
    requires Means(env, fns, k, us) && Denotes(env, Meaning(fns, k, i), u.cell)
    requires Captured(us, refs[..i], slots, outer)
    requires if refs[i].isLocal then u.location == slots + refs[i].index
             else refs[i].index < |outer| && u == outer[refs[i].index]
    ensures Means(env, fns, k, us + [u]) && Captured(us + [u], refs[..i + 1], slots, outer)
  {
    hide Denotes;
  }

  /** What one pair of the instruction leads to. */
  lemma RefMeans(fns: seq<Fn>, k: nat, i: nat, parent: ObjClosure, here: seq<nat>)
    requires 0 < k < |fns| && Faithful(parent, fns, k - 1) && i < |fns[k].upvalues| && |here| == |fns[k - 1].locals|
    ensures var r := fns[k].upvalues[i];
            var env := parent.env + [here];
            if r.isLocal then r.index < |here| && Denotes(env, Meaning(fns, k, i), here[r.index])
            else r.index < |parent.upvalues| && Denotes(env, Meaning(fns, k, i), parent.upvalues[r.index].cell)
  {
    var r := fns[k].upvalues[i];
    assert RefOk(fns, k, r);
    if !r.isLocal {
      var us := parent.upvalues[..|fns[k - 1].upvalues|];
      assert us[r.index] == parent.upvalues[r.index];
      assert Denotes(parent.env, Meaning(fns, k - 1, r.index), us[r.index].cell);
    }
  }

  /** A closure of the function at level `k`: each of the upvalues that the compiler knew of at the time of `fns`
      stands for the variable it meant by it. The closure may have more, which were resolved later. */
  ghost predicate Faithful(c: ObjClosure, fns: seq<Fn>, k: nat)
  {
    && WellFormed(fns) && k < |fns| && |fns[k].upvalues| <= |c.upvalues| && |c.env| == k
    && Means(c.env, fns, k, c.upvalues[..|fns[k].upvalues|])
  }

  /** What is true of a closure by the end of its function was true at every earlier time. */
  lemma FaithfulEarlier(c: ObjClosure, fns: seq<Fn>, later: seq<Fn>, k: nat)
    requires WellFormed(fns) && Extends(fns, later, k) && Faithful(c, later, k)
    ensures Faithful(c, fns, k)
  {
    var us := c.upvalues[..|fns[k].upvalues|];
    forall i | 0 <= i < |us|
      ensures Denotes(c.env, Meaning(fns, k, i), us[i].cell)
    {
      MeaningStable(fns, later, k, i);
      assert c.upvalues[..|later[k].upvalues|][i] == us[i];
    }
  }

  ghost predicate Denotes(env: seq<seq<nat>>, d: Declaration, cell: nat) {
    d.level < |env| && d.slot < |env[d.level]| && env[d.level][d.slot] == cell
  }

  /** Accessing a name through the upvalue the compiler resolved it to reaches the variable of the
      lexically innermost declaration. `later` is any later state in which the function is still being compiled, as
      its closures are made from the last one. */
  lemma AccessIsLexical(c: ObjClosure, fns: seq<Fn>, later: seq<Fn>, name: string)
    requires fns != [] && WellFormed(fns) && !Resolve(fns, name).failed && Resolve(fns, name).index >= 0
    requires Extends(Resolve(fns, name).fns, later, |fns| - 1) && Faithful(c, later, |fns| - 1)
    ensures var d := Lexical(fns[..|fns| - 1], name);
            && d.Some? && Resolve(fns, name).index < |c.upvalues|
            && Denotes(c.env, d.value, c.upvalues[Resolve(fns, name).index].cell)
  {
    ResolveMeans(fns, name);
    var o := Resolve(fns, name);
    FaithfulEarlier(c, o.fns, later, |fns| - 1);
    assert c.upvalues[..|o.fns[|fns| - 1].upvalues|][o.index] == c.upvalues[o.index];
  }

  /** A recursive local function: the closure that captured its own slot reads itself through that upvalue. */
  lemma SelfCapture(vm: Vm, c: ObjClosure, refs: seq<Ref>, slots: nat, outer: seq<ObjUpvalue>, i: nat, v: Value)
    requires vm.stack != [] && vm.stack[|vm.stack| - 1] == v && Captured(c.upvalues, refs, slots, outer)
    requires i < |refs| && refs[i].isLocal && slots + refs[i].index == |vm.stack| - 1
    ensures vm.Read(c.upvalues[i]) == v
  {
  }

  /** Closures that captured the same variable share one upvalue, so each sees what the other assigns. */
  lemma SameCellSameUpvalue(vm: Vm, c: ObjClosure, i: nat, d: ObjClosure, j: nat)
    requires vm.Valid() && i < |c.upvalues| && j < |d.upvalues| && c.upvalues[i] in vm.all && d.upvalues[j] in vm.all
    ensures c.upvalues[i].cell == d.upvalues[j].cell <==> c.upvalues[i] == d.upvalues[j]
  {
  }

  // ---- the list ----

  /** Strictly descending by stack slot, and every slot is on the stack. */
  ghost predicate Sorted(list: seq<ObjUpvalue>, n: nat)
    reads list`location
  {
    && (forall i :: 0 <= i < |list| ==> 0 <= list[i].location < n)
    && (forall i, j :: 0 <= i < j < |list| ==> list[i].location > list[j].location)
  }

  ghost predicate Distinct(list: seq<ObjUpvalue>) {
    forall i, j :: 0 <= i < j < |list| ==> list[i] != list[j]
  }

  ghost function Inserted(list: seq<ObjUpvalue>, u: ObjUpvalue, i: nat): (r: seq<ObjUpvalue>)
    requires i <= |list|
    ensures |r| == |list| + 1
  {
    list[..i] + [u] + list[i..]
  }

  lemma InsertedIn(list: seq<ObjUpvalue>, u: ObjUpvalue, i: nat)
    requires i <= |list|
    ensures forall w :: w in Inserted(list, u, i) ==> w == u || w in list
  {
  }

  lemma SortedLarger(list: seq<ObjUpvalue>, n: nat)
    requires Sorted(list, n)
    ensures Sorted(list, n + 1)
  {
  }

  lemma Below(list: seq<ObjUpvalue>, n: nat, slot: nat, i: nat)
    requires Sorted(list, n) && i <= |list| && (i < |list| ==> list[i].location <= slot)
    ensures forall j :: i <= j < |list| ==> list[j].location <= slot
    ensures forall j :: i < j < |list| ==> list[j].location < slot
  {
  }

  lemma SortedTail(list: seq<ObjUpvalue>, n: nat)
    requires Sorted(list, n)
    ensures Distinct(list) && (list != [] ==> Sorted(list[1..], n) && 0 <= list[0].location < n && list[0] !in list[1..])
  {
  }

  lemma SortedCut(list: seq<ObjUpvalue>, n: nat, last: nat)
    requires Sorted(list, n) && (list != [] ==> list[0].location < last)
    ensures Sorted(list, last)
  {
  }

  lemma SortedMore(list: seq<ObjUpvalue>, u: ObjUpvalue, i: nat, n: nat)
    requires Sorted(list, n) && i <= |list| && 0 <= u.location < n
    requires forall j :: 0 <= j < |list| ==> if j < i then list[j].location > u.location else list[j].location < u.location
    ensures Sorted(Inserted(list, u, i), n)
  {
    var r := Inserted(list, u, i);
    forall j, k | 0 <= j < k < |r|
      ensures r[j].location > r[k].location
    {
      assert r[j] == if j < i then list[j] else if j == i then u else list[j - 1];
      assert r[k] == if k < i then list[k] else if k == i then u else list[k - 1];
    }
  }

  // ---- variables ----

  /** Every variable has at most one upvalue, which is open as long as the variable is on the stack;
      upvalues of the slots from `last` on may be closed already. */
  ghost predicate Owned(all: set<ObjUpvalue>, open: seq<ObjUpvalue>, cells: seq<nat>, used: nat, last: nat)
    reads all`location
  {
    && last <= |cells|
    && (forall i :: 0 <= i < |cells| ==> cells[i] < used)
    && (forall i, j :: 0 <= i < j < |cells| ==> cells[i] != cells[j])
    && (forall u :: u in all ==> u.cell < used)
    && (forall u :: u in all && u.location >= 0 ==> u in open && u.location < |cells| && u.cell == cells[u.location])
    && (forall u :: u in all && u.location < 0 ==> u.cell !in cells[..last])
    && (forall u, v :: u in all && v in all && u.cell == v.cell ==> u == v)
  }

  lemma PushOwned(all: set<ObjUpvalue>, open: seq<ObjUpvalue>, cells: seq<nat>, used: nat)
    requires Owned(all, open, cells, used, |cells|)
    ensures Owned(all, open, cells + [used], used + 1, |cells| + 1)
  {
  }

  /** What closing the first open upvalue leaves of the others. */
  lemma ClosedOwned(all: set<ObjUpvalue>, open: seq<ObjUpvalue>, cells: seq<nat>, used: nat, last: nat)
    requires Owned(all, open, cells, used, last) && open != [] && open[0] in all && last <= open[0].location
    ensures open[0].location < |cells| && open[0].cell !in cells[..last]
    ensures forall u :: u in all && u.location == open[0].location ==> u == open[0]
  {
  }

  lemma OwnedWeaken(all: set<ObjUpvalue>, open: seq<ObjUpvalue>, cells: seq<nat>, used: nat, last: nat)
    requires Owned(all, open, cells, used, |cells|) && last <= |cells|
    ensures Owned(all, open, cells, used, last)
  {
    assert cells[..|cells|] == cells;
  }

  lemma OwnedCut(all: set<ObjUpvalue>, open: seq<ObjUpvalue>, cells: seq<nat>, used: nat, last: nat, n: nat)
    requires Owned(all, open, cells, used, last) && Sorted(open, n) && (open != [] ==> open[0].location < last)
    ensures Owned(all, open, cells[..last], used, last) && forall u :: u in all ==> u.location < last
  {
    assert cells[..last][..last] == cells[..last];
  }

  lemma NotYetCaptured(all: set<ObjUpvalue>, open: seq<ObjUpvalue>, cells: seq<nat>, used: nat, slot: nat)
    requires Owned(all, open, cells, used, |cells|) && slot < |cells|
    requires forall j :: 0 <= j < |open| ==> open[j].location != slot
    ensures forall w :: w in all ==> w.cell != cells[slot]
  {
    assert cells[..|cells|] == cells;
    forall w | w in all && w.location >= 0
      ensures w.location != slot
    {
      var j :| 0 <= j < |open| && open[j] == w;
    }
  }

  lemma OwnedMore(all: set<ObjUpvalue>, open: seq<ObjUpvalue>, cells: seq<nat>, used: nat, u: ObjUpvalue, i: nat)
    requires Owned(all, open, cells, used, |cells|) && i <= |open|
    requires 0 <= u.location < |cells| && u.cell == cells[u.location] && forall w :: w in all ==> w.cell != u.cell
    ensures Owned(all + {u}, Inserted(open, u, i), cells, used, |cells|)
  {
    var r := Inserted(open, u, i);
    assert r[i] == u;
    forall w | w in open
      ensures w in r
    {
      var k :| 0 <= k < |open| && open[k] == w;
      assert r[if k < i then k else k + 1] == w;
    }
  }

  function At(list: seq<ObjUpvalue>, i: nat): ObjUpvalue? {
    if i < |list| then list[i] else null
  }

  function Next(list: seq<ObjUpvalue>, i: nat): ObjUpvalue? {
    if i + 1 < |list| then list[i + 1] else null
  }
}
