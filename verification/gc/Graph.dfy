/** Heap objects and the references between them that the collector follows. */
module Graph {
  /** A value as far as the collector is concerned: a number, boolean or nil, or an object. */
  datatype Value = Plain | Ref(o: Obj)

  datatype Entry = Entry(key: Obj?, value: Value)

  type Table = seq<Entry>

  /** What an object refers to, by object type. Tables, dictionaries and sets list all their slots,
      also empty and deleted ones. */
  datatype Payload =
    | Module(name: Obj?, path: Obj?, values: Table)
    | BoundMethod(receiver: Value, method_: Obj?)
    | Class(name: Obj?, superclass: Obj?, annotations: seq<Obj?>, tables: seq<Table>)
    | Enum(name: Obj?, values: Table)
    | Closure(function_: Obj?, upvalues: seq<Obj?>)
    | Function(name: Obj?, constants: seq<Value>)
    | Instance(klass: Obj?, publicAttributes: Table, privateAttributes: Table)
    | Upvalue(closed: Value)
    | List(items: seq<Value>)
    | Dict(pairs: seq<(Value, Value)>)
    | Set(slots: seq<Value>)
    | Abstract(values: Table)
    | Result(value: Value)
    | Native
    | String
    | File

  class Obj {
    var isDark: bool
    var next: Obj?
    var payload: Payload

    constructor (payload: Payload)
      ensures this.payload == payload && !isDark && next == null
    {
      this.payload, isDark, next := payload, false, null;
    }
  }

  // ---- what is referred to ----

  ghost function OfObject(o: Obj?): set<Obj> {
    if o == null then {} else {o}
  }

  ghost function OfValue(v: Value): set<Obj> {
    if v.Ref? then {v.o} else {}
  }

  ghost function OfObjects(os: seq<Obj?>): set<Obj> {
    if os == [] then {} else OfObject(os[0]) + OfObjects(os[1..])
  }

  ghost function OfValues(vs: seq<Value>): set<Obj> {
    if vs == [] then {} else OfValue(vs[0]) + OfValues(vs[1..])
  }

  ghost function OfTable(t: Table): set<Obj> {
    if t == [] then {} else OfObject(t[0].key) + OfValue(t[0].value) + OfTable(t[1..])
  }

  ghost function OfTables(ts: seq<Table>): set<Obj> {
    if ts == [] then {} else OfTable(ts[0]) + OfTables(ts[1..])
  }

  ghost function OfPairs(ps: seq<(Value, Value)>): set<Obj> {
    if ps == [] then {} else OfValue(ps[0].0) + OfValue(ps[0].1) + OfPairs(ps[1..])
  }

  ghost function Edges(p: Payload): set<Obj> {
    match p
    case Module(name, path, values) => OfObject(name) + OfObject(path) + OfTable(values)
    case BoundMethod(receiver, m) => OfValue(receiver) + OfObject(m)
    case Class(name, superclass, annotations, tables) =>
      OfObject(name) + OfObject(superclass) + OfObjects(annotations) + OfTables(tables)
    case Enum(name, values) => OfObject(name) + OfTable(values)
    case Closure(f, upvalues) => OfObject(f) + OfObjects(upvalues)
    case Function(name, constants) => OfObject(name) + OfValues(constants)
    case Instance(klass, public, private) => OfObject(klass) + OfTable(public) + OfTable(private)
    case Upvalue(closed) => OfValue(closed)
    case List(items) => OfValues(items)
    case Dict(pairs) => OfPairs(pairs)
    case Set(slots) => OfValues(slots)
    case Abstract(values) => OfTable(values)
    case Result(value) => OfValue(value)
    case Native => {}
    case String => {}
    case File => {}
  }

  // ---- the same, field by field ----

  predicate IsIn(v: Value, o: Obj) {
    v == Ref(o)
  }

  predicate InTable(t: Table, o: Obj) {
    exists i :: 0 <= i < |t| && (t[i].key == o || IsIn(t[i].value, o))
  }

  predicate InValues(vs: seq<Value>, o: Obj) {
    exists i :: 0 <= i < |vs| && IsIn(vs[i], o)
  }

  predicate InTables(ts: seq<Table>, o: Obj) {
    exists i :: 0 <= i < |ts| && InTable(ts[i], o)
  }

  predicate InPairs(ps: seq<(Value, Value)>, o: Obj) {
    exists i :: 0 <= i < |ps| && (IsIn(ps[i].0, o) || IsIn(ps[i].1, o))
  }

  /** `o` stands in one of the fields. */
  predicate Refers(p: Payload, o: Obj) {
    match p
    case Module(name, path, values) => name == o || path == o || InTable(values, o)
    case BoundMethod(receiver, m) => IsIn(receiver, o) || m == o
    case Class(name, superclass, annotations, tables) => name == o || superclass == o || o in annotations || InTables(tables, o)
    case Enum(name, values) => name == o || InTable(values, o)
    case Closure(f, upvalues) => f == o || o in upvalues
    case Function(name, constants) => name == o || InValues(constants, o)
    case Instance(klass, public, private) => klass == o || InTable(public, o) || InTable(private, o)
    case Upvalue(closed) => IsIn(closed, o)
    case List(items) => InValues(items, o)
    case Dict(pairs) => InPairs(pairs, o)
    case Set(slots) => InValues(slots, o)
    case Abstract(values) => InTable(values, o)
    case Result(value) => IsIn(value, o)
    case Native | String | File => false
  }

  /** What the collector follows is what stands in the fields, in all of them and in nothing else. */
  lemma EdgesAreFields(p: Payload, o: Obj)
    ensures o in Edges(p) <==> Refers(p, o)
  {
    hide OfObjects, OfValues, OfTable, OfTables, OfPairs, InTable, InValues, InTables, InPairs;
    match p
    case Module(_, _, values) => TableFields(values, o);
    case BoundMethod(_, _) =>
    case Class(_, _, annotations, tables) => ObjectFields(annotations, o); TablesFields(tables, o);
    case Enum(_, values) => TableFields(values, o);
    case Closure(_, upvalues) => ObjectFields(upvalues, o);
    case Function(_, constants) => ValueFields(constants, o);
    case Instance(_, public, private) => TableFields(public, o); TableFields(private, o);
    case Upvalue(_) =>
    case List(items) => ValueFields(items, o);
    case Dict(pairs) => PairFields(pairs, o);
    case Set(slots) => ValueFields(slots, o);
    case Abstract(values) => TableFields(values, o);
    case Result(_) =>
    case _ =>
  }

  lemma {:induction false} ObjectFields(os: seq<Obj?>, o: Obj)
    ensures o in OfObjects(os) <==> o in os
    decreases |os|
  {
    if os != [] {
      ObjectFields(os[1..], o);
      assert os == [os[0]] + os[1..];
    }
  }

  lemma {:induction false} ValueFields(vs: seq<Value>, o: Obj)
    ensures o in OfValues(vs) <==> InValues(vs, o)
    decreases |vs|
  {
    if vs != [] {
      var rest := vs[1..];
      ValueFields(rest, o);
      if InValues(rest, o) {
        var i :| 0 <= i < |rest| && IsIn(rest[i], o);
        assert IsIn(vs[i + 1], o);
      }
      if i :| 0 < i < |vs| && IsIn(vs[i], o) { assert IsIn(rest[i - 1], o); }
      assert InValues(vs, o) <==> IsIn(vs[0], o) || InValues(rest, o);
    }
  }

  lemma {:induction false} TableFields(t: Table, o: Obj)
    ensures o in OfTable(t) <==> InTable(t, o)
    decreases |t|
  {
    if t != [] {
      var rest := t[1..];
      TableFields(rest, o);
      if InTable(rest, o) {
        var i :| 0 <= i < |rest| && (rest[i].key == o || IsIn(rest[i].value, o));
        assert t[i + 1] == rest[i];
      }
      if i :| 0 < i < |t| && (t[i].key == o || IsIn(t[i].value, o)) { assert rest[i - 1] == t[i]; }
      assert InTable(t, o) <==> t[0].key == o || IsIn(t[0].value, o) || InTable(rest, o);
    }
  }

  lemma {:induction false} TablesFields(ts: seq<Table>, o: Obj)
    ensures o in OfTables(ts) <==> InTables(ts, o)
    decreases |ts|
  {
    hide InTable, OfTable;
    if ts != [] {
      var rest := ts[1..];
      TableFields(ts[0], o);
      TablesFields(rest, o);
      if InTables(rest, o) {
        var i :| 0 <= i < |rest| && InTable(rest[i], o);
        assert InTable(ts[i + 1], o);
      }
      if i :| 0 < i < |ts| && InTable(ts[i], o) { assert InTable(rest[i - 1], o); }
      assert InTables(ts, o) <==> InTable(ts[0], o) || InTables(rest, o);
    }
  }

  lemma {:induction false} PairFields(ps: seq<(Value, Value)>, o: Obj)
    ensures o in OfPairs(ps) <==> InPairs(ps, o)
    decreases |ps|
  {
    if ps != [] {
      var rest := ps[1..];
      PairFields(rest, o);
      if InPairs(rest, o) {
        var i :| 0 <= i < |rest| && (IsIn(rest[i].0, o) || IsIn(rest[i].1, o));
        assert ps[i + 1] == rest[i];
      }
      if i :| 0 < i < |ps| && (IsIn(ps[i].0, o) || IsIn(ps[i].1, o)) { assert rest[i - 1] == ps[i]; }
      assert InPairs(ps, o) <==> IsIn(ps[0].0, o) || IsIn(ps[0].1, o) || InPairs(rest, o);
    }
  }

  // ---- reachability ----

  /** A path through the references, starting at a root. */
  ghost predicate Path(g: map<Obj, set<Obj>>, roots: set<Obj>, older p: seq<Obj>) {
    && p != [] && p[0] in roots
    && (forall i :: 0 <= i < |p| ==> p[i] in g)
    && (forall i :: 0 <= i < |p| - 1 ==> p[i + 1] in g[p[i]])
  }

  ghost predicate Reachable(g: map<Obj, set<Obj>>, roots: set<Obj>, o: Obj) {
    exists p: seq<Obj> :: Path(g, roots, p) && p[|p| - 1] == o
  }

  lemma RootReachable(g: map<Obj, set<Obj>>, roots: set<Obj>, o: Obj)
    requires o in roots && o in g
    ensures Reachable(g, roots, o)
  {
    assert Path(g, roots, [o]);
  }

  lemma StepReachable(g: map<Obj, set<Obj>>, roots: set<Obj>, o: Obj, t: Obj)
    requires Reachable(g, roots, o) && o in g && t in g[o] && t in g
    ensures Reachable(g, roots, t)
  {
    var p :| Path(g, roots, p) && p[|p| - 1] == o;
    assert Path(g, roots, p + [t]);
  }

  lemma ReachedFrom(g: map<Obj, set<Obj>>, roots: set<Obj>, t: Obj) returns (o: Obj)
    requires Reachable(g, roots, t) && t !in roots
    ensures o in g && t in g[o] && Reachable(g, roots, o)
  {
    var p :| Path(g, roots, p) && p[|p| - 1] == t;
    o := p[|p| - 2];
    assert Path(g, roots, p[..|p| - 1]);
  }

  /** A set that contains the roots and whatever its members refer to contains all that is reachable. */
  lemma {:induction false} ClosedContains(g: map<Obj, set<Obj>>, roots: set<Obj>, closed: set<Obj>, p: seq<Obj>)
    requires roots <= closed && forall o :: o in closed && o in g ==> g[o] <= closed
    requires Path(g, roots, p)
    ensures p[|p| - 1] in closed
    decreases |p|
  {
    if |p| > 1 {
      ClosedContains(g, roots, closed, p[..|p| - 1]);
      var o := p[|p| - 2];
      assert o in g && p[|p| - 1] in g[o];
    }
  }
}
