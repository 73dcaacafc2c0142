/** The mark-sweep collector: a gray stack over the object graph, removal of unmarked strings from the
    intern table, and a sweep of the list of all objects. */
module Collector {
  import opened Graph

  ghost function DarkIn(heap: set<Obj>): set<Obj>
    reads heap`isDark
  {
    set o | o in heap && o.isDark
  }

  ghost function Elements(s: seq<Obj>): set<Obj> {
    set o | o in s
  }

  /** Graying `t`: exactly what was not dark before is pushed, and all of it is dark afterwards. */
  ghost predicate Grayed(d0: set<Obj>, g0: seq<Obj>, d1: set<Obj>, g1: seq<Obj>, t: set<Obj>) {
    d1 == d0 + t && g0 <= g1 && Elements(g1[|g0|..]) == t - d0
  }

  lemma GrayedNone(d: set<Obj>, g: seq<Obj>)
    ensures Grayed(d, g, d, g, {})
  {
    assert g[|g|..] == [];
  }

  lemma GrayedBoth(d0: set<Obj>, g0: seq<Obj>, d1: set<Obj>, g1: seq<Obj>, d2: set<Obj>, g2: seq<Obj>, t: set<Obj>, u: set<Obj>)
    requires Grayed(d0, g0, d1, g1, t) && Grayed(d1, g1, d2, g2, u)
    ensures Grayed(d0, g0, d2, g2, t + u)
  {
    assert g2[|g0|..] == g1[|g0|..] + g2[|g1|..];
    assert Elements(g2[|g0|..]) == Elements(g1[|g0|..]) + Elements(g2[|g1|..]);
  }

  datatype CompilerRoots = CompilerRoots(classTables: seq<Table>, objects: seq<Obj?>, stringConstants: Table)

  ghost function OfCompilers(cs: seq<CompilerRoots>): set<Obj> {
    if cs == [] then {}
    else OfTables(cs[0].classTables) + OfObjects(cs[0].objects) + OfTable(cs[0].stringConstants) + OfCompilers(cs[1..])
  }

  predicate InCompilers(cs: seq<CompilerRoots>, o: Obj) {
    exists i :: 0 <= i < |cs| && OfCompiler(cs[i], o)
  }

  predicate OfCompiler(c: CompilerRoots, o: Obj) {
    InTables(c.classTables, o) || o in c.objects || InTable(c.stringConstants, o)
  }

  lemma {:induction false} CompilerFields(cs: seq<CompilerRoots>, o: Obj)
    ensures o in OfCompilers(cs) <==> InCompilers(cs, o)
    decreases |cs|
  {
    hide OfTables, OfObjects, OfTable, InTables, InTable;
    if cs != [] {
      var rest := cs[1..];
      TablesFields(cs[0].classTables, o);
      ObjectFields(cs[0].objects, o);
      TableFields(cs[0].stringConstants, o);
      CompilerFields(rest, o);
      if InCompilers(rest, o) {
        var i :| 0 <= i < |rest| && OfCompiler(rest[i], o);
        assert OfCompiler(cs[i + 1], o);
      }
      if i :| 0 < i < |cs| && OfCompiler(cs[i], o) { assert OfCompiler(rest[i - 1], o); }
      assert InCompilers(cs, o) <==> OfCompiler(cs[0], o) || InCompilers(rest, o);
    }
  }

  class Vm {
    var stack: seq<Value>
    var frames: seq<Obj?>
    var openUpvalues: seq<Obj?>
    var tables: seq<Table>
    var compilers: seq<CompilerRoots>
    var specials: seq<Obj?>
    var strings: Table
    var objects: Obj?
    var gray: seq<Obj>
    /** All objects, in list order. */
    ghost var list: seq<Obj>

    // ---- marking ----

    method GrayObject(o: Obj?, ghost heap: set<Obj>)
      requires OfObject(o) <= heap
      modifies this`gray, heap`isDark
      ensures Grayed(old(DarkIn(heap)), old(gray), DarkIn(heap), gray, OfObject(o))
    {
      if o == null || o.isDark {
        GrayedNone(DarkIn(heap), gray);
        return;
      }
      assert o in OfObject(o);
      o.isDark := true;
      gray := gray + [o];
    }

    method GrayValue(value: Value, ghost heap: set<Obj>)
      requires OfValue(value) <= heap
      modifies this`gray, heap`isDark
      ensures Grayed(old(DarkIn(heap)), old(gray), DarkIn(heap), gray, OfValue(value))
    {
      if value.Ref? {
        GrayObject(value.o, heap);
      } else {
        GrayedNone(DarkIn(heap), gray);
      }
    }

    method GrayObjects(os: seq<Obj?>, ghost heap: set<Obj>)
      requires OfObjects(os) <= heap
      modifies this`gray, heap`isDark
      ensures Grayed(old(DarkIn(heap)), old(gray), DarkIn(heap), gray, OfObjects(os))
    {
      ghost var d, g, done := DarkIn(heap), gray, {};
      GrayedNone(d, g);
      for i := 0 to |os|
        invariant done + OfObjects(os[i..]) == OfObjects(os) && Grayed(d, g, DarkIn(heap), gray, done)
      {
        assert os[i..][1..] == os[i + 1..];
        ghost var d1, g1 := DarkIn(heap), gray;
        GrayObject(os[i], heap);
        GrayedBoth(d, g, d1, g1, DarkIn(heap), gray, done, OfObject(os[i]));
        done := done + OfObject(os[i]);
      }
    }

    method GrayArray(vs: seq<Value>, ghost heap: set<Obj>)
      requires OfValues(vs) <= heap
      modifies this`gray, heap`isDark
      ensures Grayed(old(DarkIn(heap)), old(gray), DarkIn(heap), gray, OfValues(vs))
    {
      ghost var d, g, done := DarkIn(heap), gray, {};
      GrayedNone(d, g);
      for i := 0 to |vs|
        invariant done + OfValues(vs[i..]) == OfValues(vs) && Grayed(d, g, DarkIn(heap), gray, done)
      {
        assert vs[i..][1..] == vs[i + 1..];
        ghost var d1, g1 := DarkIn(heap), gray;
        GrayValue(vs[i], heap);
        GrayedBoth(d, g, d1, g1, DarkIn(heap), gray, done, OfValue(vs[i]));
        done := done + OfValue(vs[i]);
      }
    }

    method GrayTable(t: Table, ghost heap: set<Obj>)
      requires OfTable(t) <= heap
      modifies this`gray, heap`isDark
      ensures Grayed(old(DarkIn(heap)), old(gray), DarkIn(heap), gray, OfTable(t))
    {
      ghost var d, g, done := DarkIn(heap), gray, {};
      GrayedNone(d, g);
      for i := 0 to |t|
        invariant done + OfTable(t[i..]) == OfTable(t) && Grayed(d, g, DarkIn(heap), gray, done)
      {
        assert t[i..][1..] == t[i + 1..];
        ghost var d1, g1 := DarkIn(heap), gray;
        GrayObject(t[i].key, heap);
        GrayedBoth(d, g, d1, g1, DarkIn(heap), gray, done, OfObject(t[i].key));
        done := done + OfObject(t[i].key);
        d1, g1 := DarkIn(heap), gray;
        GrayValue(t[i].value, heap);
        GrayedBoth(d, g, d1, g1, DarkIn(heap), gray, done, OfValue(t[i].value));
        done := done + OfValue(t[i].value);
      }
    }

    method GrayTables(ts: seq<Table>, ghost heap: set<Obj>)
      requires OfTables(ts) <= heap
      modifies this`gray, heap`isDark
      ensures Grayed(old(DarkIn(heap)), old(gray), DarkIn(heap), gray, OfTables(ts))
    {
      ghost var d, g, done := DarkIn(heap), gray, {};
      GrayedNone(d, g);
      for i := 0 to |ts|
        invariant done + OfTables(ts[i..]) == OfTables(ts) && Grayed(d, g, DarkIn(heap), gray, done)
      {
        assert ts[i..][1..] == ts[i + 1..];
        ghost var d1, g1 := DarkIn(heap), gray;
        GrayTable(ts[i], heap);
        GrayedBoth(d, g, d1, g1, DarkIn(heap), gray, done, OfTable(ts[i]));
        done := done + OfTable(ts[i]);
      }
    }

    method GrayPairs(ps: seq<(Value, Value)>, ghost heap: set<Obj>)
      requires OfPairs(ps) <= heap
      modifies this`gray, heap`isDark
      ensures Grayed(old(DarkIn(heap)), old(gray), DarkIn(heap), gray, OfPairs(ps))
    {
      ghost var d, g, done := DarkIn(heap), gray, {};
      GrayedNone(d, g);
      for i := 0 to |ps|
        invariant done + OfPairs(ps[i..]) == OfPairs(ps) && Grayed(d, g, DarkIn(heap), gray, done)
      {
        assert ps[i..][1..] == ps[i + 1..];
        ghost var d1, g1 := DarkIn(heap), gray;
        GrayValue(ps[i].0, heap);
        GrayedBoth(d, g, d1, g1, DarkIn(heap), gray, done, OfValue(ps[i].0));
        done := done + OfValue(ps[i].0);
        d1, g1 := DarkIn(heap), gray;
        GrayValue(ps[i].1, heap);
        GrayedBoth(d, g, d1, g1, DarkIn(heap), gray, done, OfValue(ps[i].1));
        done := done + OfValue(ps[i].1);
      }
    }

    /** Grays everything `o` refers to. */
    method BlackenObject(o: Obj, ghost heap: set<Obj>)
      requires Edges(o.payload) <= heap
      modifies this`gray, heap`isDark
      ensures Grayed(old(DarkIn(heap)), old(gray), DarkIn(heap), gray, Edges(o.payload))
    {
      hide Grayed, OfObject, OfValue, OfObjects, OfValues, OfTable, OfTables, OfPairs, DarkIn;
      ghost var d, g := DarkIn(heap), gray;
      ghost var d1, g1 := d, g;
      match o.payload
      case Module(name, path, values) =>
        GrayObject(name, heap);
        d1, g1 := DarkIn(heap), gray;
        GrayObject(path, heap);
        GrayedBoth(d, g, d1, g1, DarkIn(heap), gray, OfObject(name), OfObject(path));
        d1, g1 := DarkIn(heap), gray;
        GrayTable(values, heap);
        GrayedBoth(d, g, d1, g1, DarkIn(heap), gray, OfObject(name) + OfObject(path), OfTable(values));
      case BoundMethod(receiver, m) =>
        GrayValue(receiver, heap);
        d1, g1 := DarkIn(heap), gray;
        GrayObject(m, heap);
        GrayedBoth(d, g, d1, g1, DarkIn(heap), gray, OfValue(receiver), OfObject(m));
      case Class(name, superclass, annotations, tables) =>
        GrayObject(name, heap);
        d1, g1 := DarkIn(heap), gray;
        GrayObject(superclass, heap);
        GrayedBoth(d, g, d1, g1, DarkIn(heap), gray, OfObject(name), OfObject(superclass));
        d1, g1 := DarkIn(heap), gray;
        GrayObjects(annotations, heap);
        GrayedBoth(d, g, d1, g1, DarkIn(heap), gray, OfObject(name) + OfObject(superclass), OfObjects(annotations));
        d1, g1 := DarkIn(heap), gray;
        GrayTables(tables, heap);
        GrayedBoth(d, g, d1, g1, DarkIn(heap), gray, OfObject(name) + OfObject(superclass) + OfObjects(annotations), OfTables(tables));
      case Enum(name, values) =>
        GrayObject(name, heap);
        d1, g1 := DarkIn(heap), gray;
        GrayTable(values, heap);
        GrayedBoth(d, g, d1, g1, DarkIn(heap), gray, OfObject(name), OfTable(values));
      case Closure(f, upvalues) =>
        GrayObject(f, heap);
        d1, g1 := DarkIn(heap), gray;
        GrayObjects(upvalues, heap);
        GrayedBoth(d, g, d1, g1, DarkIn(heap), gray, OfObject(f), OfObjects(upvalues));
      case Function(name, constants) =>
        GrayObject(name, heap);
        d1, g1 := DarkIn(heap), gray;
        GrayArray(constants, heap);
        GrayedBoth(d, g, d1, g1, DarkIn(heap), gray, OfObject(name), OfValues(constants));
      case Instance(klass, public, private) =>
        GrayObject(klass, heap);
        d1, g1 := DarkIn(heap), gray;
        GrayTable(public, heap);
        GrayedBoth(d, g, d1, g1, DarkIn(heap), gray, OfObject(klass), OfTable(public));
        d1, g1 := DarkIn(heap), gray;
        GrayTable(private, heap);
        GrayedBoth(d, g, d1, g1, DarkIn(heap), gray, OfObject(klass) + OfTable(public), OfTable(private));
      case Upvalue(closed) =>
        GrayValue(closed, heap);
      case List(items) =>
        GrayArray(items, heap);
      case Dict(pairs) =>
        GrayPairs(pairs, heap);
      case Set(slots) =>
        GrayArray(slots, heap);
      case Abstract(values) =>
        GrayTable(values, heap);
      case Result(value) =>
        GrayValue(value, heap);
      case Native => GrayedNone(d, g);
      case String => GrayedNone(d, g);
      case File => GrayedNone(d, g);
    }

    // ---- roots ----

    ghost function Roots(): set<Obj>
      reads this`stack, this`frames, this`openUpvalues, this`tables, this`compilers, this`specials
    {
      OfValues(stack) + OfObjects(frames) + OfObjects(openUpvalues) + OfTables(tables) + OfCompilers(compilers) + OfObjects(specials)
    }

    /** `o` stands in a root: on the stack, in a frame or an open upvalue, in a table, with a compiler, or for itself. */
    predicate Rooted(o: Obj)
      reads this`stack, this`frames, this`openUpvalues, this`tables, this`compilers, this`specials
    {
      InValues(stack, o) || o in frames || o in openUpvalues || InTables(tables, o) || InCompilers(compilers, o) || o in specials
    }

    lemma RootsAreFields(o: Obj)
      ensures o in Roots() <==> Rooted(o)
    {
      hide OfObjects, OfValues, OfTables, OfCompilers, InValues, InTables, InCompilers;
      ValueFields(stack, o);
      ObjectFields(frames, o);
      ObjectFields(openUpvalues, o);
      TablesFields(tables, o);
      CompilerFields(compilers, o);
      ObjectFields(specials, o);
    }

    method GrayCompilerRoots(ghost heap: set<Obj>)
      requires OfCompilers(compilers) <= heap
      modifies this`gray, heap`isDark
      ensures Grayed(old(DarkIn(heap)), old(gray), DarkIn(heap), gray, OfCompilers(compilers))
    {
      hide Grayed, OfObjects, OfTable, OfTables, DarkIn;
      ghost var d, g, done := DarkIn(heap), gray, {};
      GrayedNone(d, g);
      for i := 0 to |compilers|
        invariant done + OfCompilers(compilers[i..]) == OfCompilers(compilers) && Grayed(d, g, DarkIn(heap), gray, done)
      {
        var c := compilers[i];
        assert compilers[i..][1..] == compilers[i + 1..];
        ghost var d1, g1 := DarkIn(heap), gray;
        GrayTables(c.classTables, heap);
        GrayedBoth(d, g, d1, g1, DarkIn(heap), gray, done, OfTables(c.classTables));
        done := done + OfTables(c.classTables);
        d1, g1 := DarkIn(heap), gray;
        GrayObjects(c.objects, heap);
        GrayedBoth(d, g, d1, g1, DarkIn(heap), gray, done, OfObjects(c.objects));
        done := done + OfObjects(c.objects);
        d1, g1 := DarkIn(heap), gray;
        GrayTable(c.stringConstants, heap);
        GrayedBoth(d, g, d1, g1, DarkIn(heap), gray, done, OfTable(c.stringConstants));
        done := done + OfTable(c.stringConstants);
      }
    }

    method MarkRoots(ghost heap: set<Obj>)
      requires Roots() <= heap
      modifies this`gray, heap`isDark
      ensures Grayed(old(DarkIn(heap)), old(gray), DarkIn(heap), gray, Roots())
    {
      hide Grayed, OfObject, OfValue, OfObjects, OfValues, OfTable, OfTables, OfCompilers, DarkIn;
      ghost var d, g := DarkIn(heap), gray;
      GrayArray(stack, heap);
      ghost var d1, g1 := DarkIn(heap), gray;
      GrayObjects(frames, heap);
      GrayedBoth(d, g, d1, g1, DarkIn(heap), gray, OfValues(stack), OfObjects(frames));
      d1, g1 := DarkIn(heap), gray;
      GrayObjects(openUpvalues, heap);
      GrayedBoth(d, g, d1, g1, DarkIn(heap), gray, OfValues(stack) + OfObjects(frames), OfObjects(openUpvalues));
      d1, g1 := DarkIn(heap), gray;
      GrayTables(tables, heap);
      ghost var done := OfValues(stack) + OfObjects(frames) + OfObjects(openUpvalues);
      GrayedBoth(d, g, d1, g1, DarkIn(heap), gray, done, OfTables(tables));
      d1, g1 := DarkIn(heap), gray;
      GrayCompilerRoots(heap);
      GrayedBoth(d, g, d1, g1, DarkIn(heap), gray, done + OfTables(tables), OfCompilers(compilers));
      d1, g1 := DarkIn(heap), gray;
      GrayObjects(specials, heap);
      GrayedBoth(d, g, d1, g1, DarkIn(heap), gray, done + OfTables(tables) + OfCompilers(compilers), OfObjects(specials));
    }

    // ---- tracing ----

    /** Pops and blackens until nothing is gray. Every dark object is gray or refers to dark objects
        only, and nothing unreachable is ever dark. */
    method Trace(ghost heap: set<Obj>, ghost g: map<Obj, set<Obj>>, ghost roots: set<Obj>)
      requires GraphOf(heap, g) && roots <= heap && DarkIn(heap) == roots && Elements(gray) == roots
      modifies this`gray, heap`isDark
      ensures gray == [] && forall o :: o in heap ==> (o.isDark <==> Reachable(g, roots, o))
    {
      hide Grayed, Reachable, Tricolor, DarkIn;
      TricolorStart(g, roots, DarkIn(heap), gray);
      while |gray| > 0
        invariant GraphOf(heap, g) && DarkIn(heap) <= heap && Tricolor(g, roots, DarkIn(heap), gray)
        decreases heap - DarkIn(heap), |gray|
      {
        var o := gray[|gray| - 1];
        ghost var d, before := DarkIn(heap), gray;
        gray := gray[..|gray| - 1];
        ghost var rest := gray;
        GrayInGraph(g, roots, d, before, o);
        BlackenObject(o, heap);
        DarkWithin(heap);
        NewGray(d, rest, DarkIn(heap), gray, g[o]);
        TricolorStep(g, roots, d, before, o, rest, DarkIn(heap), gray);
      }
      forall o | o in heap
        ensures o.isDark <==> Reachable(g, roots, o)
      {
        DarkIffReachable(g, roots, DarkIn(heap), o);
        IsDarkIn(heap, o);
      }
    }

    // ---- weak references ----

    /** Entries of the intern table whose string was not marked become tombstones. */
    method RemoveWhite()
      modifies this`strings
      ensures |strings| == |old(strings)|
      ensures forall i :: 0 <= i < |strings| ==> strings[i] == Weak(old(strings)[i])
    {
      for i := 0 to |strings|
        invariant |strings| == |old(strings)|
        invariant forall k :: 0 <= k < i ==> strings[k] == Weak(old(strings)[k])
        invariant forall k :: i <= k < |strings| ==> strings[k] == old(strings)[k]
      {
        var key := strings[i].key;
        if key != null && !key.isDark {
          strings := strings[i := Entry(null, Plain)];
        }
      }
    }

    // ---- sweeping ----

    /** The object list starts at `objects` and runs through `next`. */
    ghost predicate Linked()
      reads this`objects, this`list, list`next
    {
      && objects == At(list, 0)
      && (forall i :: 0 <= i < |list| ==> list[i].next == After(list, i, null))
      && (forall i, j :: 0 <= i < j < |list| ==> list[i] != list[j])
    }

    lemma LinkedDistinct()
      requires Linked()
      ensures forall i, j :: 0 <= i < j < |list| ==> list[i] != list[j]
    {
    }

    /** Unlinks every unmarked object and unmarks the others. */
    method Sweep()
      requires Linked()
      modifies this`objects, this`list, list`next, list`isDark
      ensures list == Survivors(old(list), old(DarkIn(Elements(list))))
      ensures Linked()
      ensures forall o :: o in list ==> !o.isDark
    {
      hide Survivors, Chain, Rest, After;
      ghost var all, dark := list, DarkIn(Elements(list));
      ghost var i, kept: seq<Obj> := 0, [];
      SurvivorsStart(all, dark);
      ChainNone(objects);
      RestStart(all);
      var prev: Obj? := null;
      var current := objects;
      while current != null
        invariant 0 <= i <= |all| && current == At(all, i) && kept == Survivors(all[..i], dark) && Chain(kept, current)
        invariant (if kept == [] then prev == null && objects == current else prev == kept[|kept| - 1] && objects == kept[0])
        invariant Rest(all, i, dark) && forall o :: o in kept ==> !o.isDark
        decreases |all| - i
      {
        SurvivorsStep(all, i, dark);
        SurvivorsDistinct(all[..i], dark);
        RestHead(all, i, dark);
        if !current.isDark {
          ghost var unreached := current;
          current := current.next;
          Relink(prev, current, unreached, all, i, kept, dark);
        } else {
          Unmark(current, all, i, kept, dark);
          kept := kept + [current];
          prev := current;
          current := current.next;
        }
        i := i + 1;
      }
      assert all[..i] == all;
      SurvivorsDistinct(all, dark);
      list := kept;
      ChainLinks(list);
    }

    method Unmark(o: Obj, ghost all: seq<Obj>, ghost i: nat, ghost kept: seq<Obj>, ghost dark: set<Obj>)
      requires i < |all| && o == all[i] && (forall j, k :: 0 <= j < k < |all| ==> all[j] != all[k])
      requires Chain(kept, o) && Rest(all, i, dark)
      modifies all`isDark
      ensures Chain(kept + [o], o.next) && Rest(all, i + 1, dark) && !o.isDark
      ensures forall x :: x in all && x != o ==> x.isDark == old(x.isDark)
    {
      ChainMore(kept, o);
      o.isDark := false;
    }

    /** The link that led to the object just passed now leads to the one behind it. */
    method Relink(prev: Obj?, current: Obj?, ghost unreached: Obj, ghost all: seq<Obj>, ghost i: nat, ghost kept: seq<Obj>,
                  ghost dark: set<Obj>)
      requires i < |all| && (forall j, k :: 0 <= j < k < |all| ==> all[j] != all[k])
      requires prev == (if kept == [] then null else kept[|kept| - 1]) && (forall o :: o in kept ==> o in all[..i])
      requires (forall i, j :: 0 <= i < j < |kept| ==> kept[i] != kept[j]) && Chain(kept, unreached) && Rest(all, i, dark)
      modifies this`objects, all`next
      ensures Chain(kept, current) && Rest(all, i + 1, dark) && objects == if prev == null then current else old(objects)
    {
      if prev == null {
        objects := current;
      } else {
        assert prev in kept;
        prev.next := current;
      }
    }

    // ---- a collection ----

    /** Between collections all objects are white, and nothing refers to an object that is not there. */
    ghost predicate Valid()
      reads this, list
    {
      && Linked() && gray == []
      && Roots() <= Elements(list)
      && (forall o :: o in list ==> !o.isDark && Edges(o.payload) <= Elements(list))
      && (forall i :: 0 <= i < |strings| ==> OfObject(strings[i].key) <= Elements(list))
    }

    ghost function References(): map<Obj, set<Obj>>
      reads this`list, list`payload
    {
      map o | o in list :: Edges(o.payload)
    }

    /** Keeps exactly the objects reachable from the roots, in their order, and unmarks them. What is
        left refers to nothing that was freed, and neither do the roots and the intern table. */
    method CollectGarbage()
      requires Valid()
      modifies this`gray, this`strings, this`objects, this`list, list`next, list`isDark
      ensures Valid()
      ensures var live := Live(old(list), old(References()), old(Roots()));
              && list == Survivors(old(list), live)
              && |strings| == |old(strings)|
              && forall i :: 0 <= i < |strings| ==> strings[i] == Strong(old(strings)[i], live)
      ensures forall o, t :: o in list && Refers(o.payload, t) ==> t in list
      ensures forall t :: Rooted(t) ==> t in list
      ensures forall t :: t in list ==> Rooted(t) || exists o :: o in list && Refers(o.payload, t)
    {
      hide Roots, Grayed, Reachable, Edges, Survivors, Linked, Refers, Rooted;
      ghost var all, heap, g, roots := list, Elements(list), References(), Roots();
      ghost var interned := strings;
      LinkedDistinct();
      assert DarkIn(heap) == {};
      MarkRoots(heap);
      FirstMarks(roots, DarkIn(heap), gray);
      Trace(heap, g, roots);
      ghost var live := Live(all, g, roots);
      assert DarkIn(heap) == live;
      RemoveWhite();
      assert forall i :: 0 <= i < |strings| ==> strings[i] == Strong(interned[i], live);
      Sweep();
      LeftValid(all, g, roots, interned);
    }

    /** After the sweep nothing refers to what was freed. */
    lemma LeftValid(all: seq<Obj>, g: map<Obj, set<Obj>>, roots: set<Obj>, interned: Table)
      requires Linked() && gray == [] && roots == Roots() && g.Keys == Elements(all) && roots <= g.Keys
      requires forall i, j :: 0 <= i < j < |all| ==> all[i] != all[j]
      requires forall o :: o in g ==> g[o] == Edges(o.payload) && g[o] <= g.Keys
      requires list == Survivors(all, Live(all, g, roots)) && forall o :: o in list ==> !o.isDark
      requires |strings| == |interned| && forall i :: 0 <= i < |strings| ==> strings[i] == Strong(interned[i], Live(all, g, roots))
      ensures Valid()
      ensures forall o, t :: o in list && Refers(o.payload, t) ==> t in list
      ensures forall t :: Rooted(t) ==> t in list
      ensures forall t :: t in list ==> Rooted(t) || exists o :: o in list && Refers(o.payload, t)
    {
      hide Roots, Reachable, Edges, Survivors, Linked, Refers, Rooted, Live;
      LiveClosed(all, g, roots);
      SurvivorSet(all, Live(all, g, roots));
      assert Roots() <= Elements(list);
      forall o | o in list
        ensures o in g && Edges(o.payload) <= Elements(list)
      {
        assert o in Elements(list);
        assert g[o] == Edges(o.payload);
      }
      NothingMissing();
      NothingSpare(all, g, roots);
    }

    lemma NothingMissing()
      requires Roots() <= Elements(list) && forall o :: o in list ==> Edges(o.payload) <= Elements(list)
      ensures forall o, t :: o in list && Refers(o.payload, t) ==> t in list
      ensures forall t :: Rooted(t) ==> t in list
    {
      hide Roots, Edges, Refers, Rooted;
      forall o, t | o in list && Refers(o.payload, t)
        ensures t in list
      {
        EdgesAreFields(o.payload, t);
      }
      forall t | Rooted(t)
        ensures t in list
      {
        RootsAreFields(t);
      }
    }

    /** What survived is in a root or in a field of something that survived. */
    lemma NothingSpare(all: seq<Obj>, g: map<Obj, set<Obj>>, roots: set<Obj>)
      requires roots == Roots() && g.Keys == Elements(all) && Elements(list) == Live(all, g, roots)
      requires forall o :: o in list ==> o in g && g[o] == Edges(o.payload)
      ensures forall t :: t in list ==> Rooted(t) || exists o :: o in list && Refers(o.payload, t)
    {
      hide Roots, Edges, Refers, Rooted, Reachable;
      forall t | t in list
        ensures Rooted(t) || exists o :: o in list && Refers(o.payload, t)
      {
        RootsAreFields(t);
        assert t in Elements(list);
        if t !in roots {
          var o := ReachedFrom(g, roots, t);
          assert o in Elements(list);
          EdgesAreFields(o.payload, t);
        }
      }
    }
  }

  /** The reachable objects. */
  ghost function Live(all: seq<Obj>, g: map<Obj, set<Obj>>, roots: set<Obj>): set<Obj> {
    set o | o in all && Reachable(g, roots, o)
  }

  ghost function Strong(e: Entry, live: set<Obj>): Entry {
    if e.key != null && e.key !in live then Entry(null, Plain) else e
  }

  lemma FirstMarks(roots: set<Obj>, dark: set<Obj>, gray: seq<Obj>)
    requires Grayed({}, [], dark, gray, roots)
    ensures dark == roots && Elements(gray) == roots
  {
    assert gray[0..] == gray;
  }

  lemma LiveClosed(all: seq<Obj>, g: map<Obj, set<Obj>>, roots: set<Obj>)
    requires g.Keys == Elements(all) && roots <= g.Keys && (forall o :: o in g ==> g[o] <= g.Keys)
    requires forall i, j :: 0 <= i < j < |all| ==> all[i] != all[j]
    ensures var live := Live(all, g, roots);
            && roots <= live && (forall o :: o in live ==> g[o] <= live) && Elements(Survivors(all, live)) == live
  {
    hide Reachable, Survivors;
    var live := Live(all, g, roots);
    SurvivorSet(all, live);
    assert live <= Elements(all);
    forall o | o in roots
      ensures o in live
    {
      RootReachable(g, roots, o);
    }
    forall o, t | o in live && t in g[o]
      ensures t in live
    {
      StepReachable(g, roots, o, t);
    }
  }

  lemma {:induction false} SurvivorSet(list: seq<Obj>, dark: set<Obj>)
    ensures Elements(Survivors(list, dark)) == Elements(list) * dark
    decreases |list|
  {
    if list != [] {
      var rest, o := list[..|list| - 1], list[|list| - 1];
      SurvivorSet(rest, dark);
      assert list == rest + [o];
      ElementsMore(rest, o);
      ElementsMore(Survivors(rest, dark), o);
      assert Survivors(rest, dark) + [] == Survivors(rest, dark);
    }
  }

  lemma ElementsMore(s: seq<Obj>, o: Obj)
    ensures Elements(s + [o]) == Elements(s) + {o}
  {
  }

  /** From position `i` on nothing has been touched yet. */
  ghost predicate Rest(all: seq<Obj>, i: nat, dark: set<Obj>)
    reads all`next, all`isDark
  {
    forall j :: i <= j < |all| ==> all[j].next == After(all, j, null) && all[j].isDark == (all[j] in dark)
  }

  lemma RestStart(all: seq<Obj>)
    requires forall i :: 0 <= i < |all| ==> all[i].next == After(all, i, null)
    ensures Rest(all, 0, DarkIn(Elements(all)))
  {
    forall o | o in all
      ensures o.isDark == (o in DarkIn(Elements(all)))
    {
      assert o in Elements(all);
    }
  }

  lemma RestHead(all: seq<Obj>, i: nat, dark: set<Obj>)
    requires Rest(all, i, dark) && i < |all|
    ensures all[i].next == At(all, i + 1) && all[i].isDark == (all[i] in dark)
  {
  }

  function After(s: seq<Obj>, j: nat, tail: Obj?): Obj? {
    if j + 1 < |s| then s[j + 1] else tail
  }

  /** The objects of `s` are linked in order, and the last one leads to `tail`. */
  ghost predicate Chain(s: seq<Obj>, tail: Obj?)
    reads s`next
  {
    forall j :: 0 <= j < |s| ==> s[j].next == After(s, j, tail)
  }

  lemma ChainNone(tail: Obj?)
    ensures Chain([], tail)
  {
  }

  lemma ChainMore(s: seq<Obj>, o: Obj)
    requires Chain(s, o)
    ensures Chain(s + [o], o.next)
  {
    var t := s + [o];
    forall j | 0 <= j < |t|
      ensures t[j].next == After(t, j, o.next)
    {
      if j < |s| { assert t[j] == s[j]; }
    }
  }

  lemma ChainLinks(s: seq<Obj>)
    requires Chain(s, null)
    ensures forall i :: 0 <= i < |s| ==> s[i].next == After(s, i, null)
  {
  }

  lemma SurvivorsStart(list: seq<Obj>, dark: set<Obj>)
    ensures Survivors(list[..0], dark) == []
  {
  }

  lemma SurvivorsStep(list: seq<Obj>, i: nat, dark: set<Obj>)
    requires i < |list|
    ensures Survivors(list[..i + 1], dark) == Survivors(list[..i], dark) + if list[i] in dark then [list[i]] else []
  {
    assert list[..i + 1][..i] == list[..i];
  }

  lemma {:induction false} SurvivorsDistinct(list: seq<Obj>, dark: set<Obj>)
    requires forall i, j :: 0 <= i < j < |list| ==> list[i] != list[j]
    ensures var r := Survivors(list, dark);
            && (forall i, j :: 0 <= i < j < |r| ==> r[i] != r[j])
            && (forall o :: o in r <==> o in list && o in dark)
    decreases |list|
  {
    if list != [] {
      SurvivorsDistinct(list[..|list| - 1], dark);
    }
  }

  ghost function Weak(e: Entry): Entry
    reads if e.key == null then {} else {e.key}
  {
    if e.key != null && !e.key.isDark then Entry(null, Plain) else e
  }

  function At(list: seq<Obj>, i: nat): Obj? {
    if i < |list| then list[i] else null
  }

  /** The members of `list` that are in `dark`, in the same order. */
  ghost function Survivors(list: seq<Obj>, dark: set<Obj>): seq<Obj> {
    if list == [] then []
    else Survivors(list[..|list| - 1], dark) + if list[|list| - 1] in dark then [list[|list| - 1]] else []
  }

  lemma DarkWithin(heap: set<Obj>)
    ensures DarkIn(heap) <= heap
  {
  }

  lemma IsDarkIn(heap: set<Obj>, o: Obj)
    requires o in heap
    ensures o in DarkIn(heap) <==> o.isDark
  {
  }

  /** Dark objects are reachable; those that are not gray refer to dark objects only. */
  ghost predicate Tricolor(g: map<Obj, set<Obj>>, roots: set<Obj>, dark: set<Obj>, gray: seq<Obj>) {
    && roots <= dark && Elements(gray) <= dark
    && (forall o :: o in dark ==> o in g && Reachable(g, roots, o))
    && (forall o :: o in dark && o !in gray ==> g[o] <= dark)
  }

  lemma TricolorStart(g: map<Obj, set<Obj>>, roots: set<Obj>, dark: set<Obj>, gray: seq<Obj>)
    requires dark == roots && roots <= g.Keys && Elements(gray) == dark
    ensures Tricolor(g, roots, dark, gray)
  {
    forall o | o in dark
      ensures Reachable(g, roots, o)
    {
      RootReachable(g, roots, o);
    }
  }

  lemma GrayInGraph(g: map<Obj, set<Obj>>, roots: set<Obj>, dark: set<Obj>, gray: seq<Obj>, o: Obj)
    requires Tricolor(g, roots, dark, gray) && o in gray
    ensures o in dark && o in g
  {
    assert o in Elements(gray);
  }

  lemma TricolorStep(g: map<Obj, set<Obj>>, roots: set<Obj>, d0: set<Obj>, before: seq<Obj>, o: Obj, rest: seq<Obj>, d1: set<Obj>,
                     g1: seq<Obj>)
    requires Tricolor(g, roots, d0, before) && |before| > 0 && o == before[|before| - 1] && rest == before[..|before| - 1]
    requires o in g && g[o] <= g.Keys && Grayed(d0, rest, d1, g1, g[o])
    ensures Tricolor(g, roots, d1, g1)
  {
    hide Grayed, Reachable;
    assert before == rest + [o];
    NewGray(d0, rest, d1, g1, g[o]);
    assert o in before && o in Elements(before);
    forall t | t in g[o]
      ensures Reachable(g, roots, t)
    {
      StepReachable(g, roots, o, t);
    }
    forall x | x in d1 && x !in g1
      ensures g[x] <= d1
    {
      assert x !in Elements(g1);
      if x != o { assert x in d0 && x !in before; }
    }
  }

  lemma DarkIffReachable(g: map<Obj, set<Obj>>, roots: set<Obj>, dark: set<Obj>, o: Obj)
    requires Tricolor(g, roots, dark, [])
    ensures o in dark <==> Reachable(g, roots, o)
  {
    hide Reachable;
    if Reachable(g, roots, o) { AllMarked(g, roots, dark, o); }
  }

  /** `g` maps each object of the heap to what it refers to, which lies in the heap. */
  ghost predicate GraphOf(heap: set<Obj>, g: map<Obj, set<Obj>>)
    reads heap`payload
  {
    g.Keys == heap && forall o :: o in heap ==> g[o] == Edges(o.payload) && g[o] <= heap
  }

  lemma NewGray(d0: set<Obj>, g0: seq<Obj>, d1: set<Obj>, g1: seq<Obj>, t: set<Obj>)
    requires Grayed(d0, g0, d1, g1, t)
    ensures d1 == d0 + t && Elements(g1) == Elements(g0) + (t - d0) && (t <= d0 ==> g1 == g0)
  {
    assert g1 == g0 + g1[|g0|..];
    assert Elements(g1) == Elements(g0) + Elements(g1[|g0|..]);
    FirstElement(g1[|g0|..]);
  }

  lemma FirstElement(s: seq<Obj>)
    ensures s != [] ==> s[0] in Elements(s)
  {
  }

  lemma AllMarked(g: map<Obj, set<Obj>>, roots: set<Obj>, closed: set<Obj>, o: Obj)
    requires roots <= closed && (forall x :: x in closed && x in g ==> g[x] <= closed) && Reachable(g, roots, o)
    ensures o in closed
  {
    var p :| Path(g, roots, p) && p[|p| - 1] == o;
    ClosedContains(g, roots, closed, p);
  }
}
