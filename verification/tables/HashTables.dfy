/** The two open-addressing containers: the string table, which only grows, and the dictionary, which
    also shrinks and keeps track of how many keys are live. */
module HashTables {
  import opened Options
  import opened Probing

  /** Capacities: zero, then eight and its doublings. */
  predicate IsCapacity(n: nat) {
    n == 0 || n == 8 || (n > 8 && n % 2 == 0 && IsCapacity(n / 2))
  }

  function GrowCapacity(n: nat): nat {
    if n < 8 then 8 else n * 2
  }

  function ShrinkCapacity(n: nat): nat {
    if n < 16 then 8 else n / 2
  }

  lemma CapacityChanges(n: nat)
    requires IsCapacity(n)
    ensures IsCapacity(GrowCapacity(n)) && IsCapacity(ShrinkCapacity(n)) && (n > 0 ==> n >= 8)
  {
    if n >= 8 { Doubled(n); }
  }

  lemma Doubled(n: nat)
    requires IsCapacity(n) && n >= 8
    ensures IsCapacity(n * 2)
  {
    assert n * 2 / 2 == n && n * 2 % 2 == 0;
  }

  /** At most three quarters of the slots are used, so that every probe meets an empty slot. `count`
      may be too high: reusing a tombstone raises it although no further slot is used. */
  predicate Loaded(used: nat, count: nat, capacity: nat) {
    used <= count && 4 * count <= 3 * capacity && IsCapacity(capacity)
  }

  class Table<K(==), V> {
    const hash: K -> nat
    var count: nat
    var entries: array<Slot<K, V>>

    ghost predicate Valid()
      reads this, entries
    {
      Sound(entries[..], hash) && Loaded(Used(entries[..]), count, entries.Length)
    }

    ghost function Map(): map<K, V>
      requires Valid()
      reads this, entries
    {
      Contents(entries[..])
    }

    constructor (hash: K -> nat)
      ensures Valid() && Map() == map[] && this.hash == hash && fresh(entries)
    {
      this.hash := hash;
      count := 0;
      entries := new Slot<K, V>[0](i => Empty);
      new;
      NothingUsed(entries[..]);
    }

    lemma NothingCounted()
      requires Valid() && count == 0
      ensures Map() == map[]
    {
      NothingUsed(entries[..]);
    }

    method Get(key: K) returns (r: Option<V>)
      requires Valid()
      ensures r == if key in Map() then Some(Map()[key]) else None
    {
      if count == 0 {
        NothingCounted();
        return None;
      }
      var i := FindEntry(entries, hash, key);
      FoundIs(entries[..], hash, key, i);
      var entry := entries[i];
      r := if entry.Full? then Some(entry.value) else None;
    }

    method AdjustCapacity(capacity: nat)
      requires Sound(entries[..], hash) && Live(entries[..]) < capacity
      modifies this`count, this`entries
      ensures fresh(entries) && entries.Length == capacity && Sound(entries[..], hash)
      ensures Contents(entries[..]) == old(Contents(entries[..])) && Used(entries[..]) == count == old(Live(entries[..]))
    {
      entries, count := Rehash(entries, hash, capacity);
    }

    method Set(key: K, value: V) returns (isNewKey: bool)
      requires Valid()
      modifies this, entries
      ensures Valid() && Map() == old(Map())[key := value] && isNewKey == (key !in old(Map()))
      ensures entries == old(entries) || fresh(entries)
    {
      CapacityChanges(entries.Length);
      if 4 * (count + 1) > 3 * entries.Length {
        AdjustCapacity(GrowCapacity(entries.Length));
      }
      isNewKey := Store(key, value);
    }

    method Store(key: K, value: V) returns (isNewKey: bool)
      requires Valid() && 4 * (count + 1) <= 3 * entries.Length
      modifies this`count, entries
      ensures Valid() && Contents(entries[..]) == old(Contents(entries[..]))[key := value]
      ensures isNewKey == (key !in old(Contents(entries[..])))
    {
      ghost var s := entries[..];
      var i := FindEntry(entries, hash, key);
      PutKeeps(s, hash, key, value, i);
      UsedUpdate(s, i, Full(key, value));
      isNewKey := !entries[i].Full?;
      entries[i] := Full(key, value);
      assert entries[..] == s[i := Full(key, value)];
      if isNewKey { count := count + 1; }
    }

    /** Leaves a tombstone. The count stays, because the slot is still used. */
    method Delete(key: K) returns (deleted: bool)
      requires Valid()
      modifies entries
      ensures Valid() && deleted == (key in old(Map())) && Map() == old(Map()) - {key}
      ensures forall i :: 0 <= i < entries.Length ==> entries[i] == old(entries[i]) || entries[i].Tombstone?
    {
      ghost var s := entries[..];
      if count == 0 {
        NothingCounted();
        return false;
      }
      var i := FindEntry(entries, hash, key);
      FoundIs(s, hash, key, i);
      if !entries[i].Full? {
        assert Contents(s) - {key} == Contents(s);
        return false;
      }
      RemoveKeeps(s, hash, i);
      UsedUpdate(s, i, Tombstone);
      entries[i] := Tombstone;
      assert entries[..] == s[i := Tombstone];
      return true;
    }
  }

  class Dict<K(==), V> {
    const hash: K -> nat
    var count: nat
    var activeCount: nat
    var entries: array<Slot<K, V>>

    ghost predicate Valid()
      reads this, entries
    {
      && Sound(entries[..], hash) && Loaded(Used(entries[..]), count, entries.Length)
      && activeCount == Live(entries[..])
    }

    ghost function Map(): map<K, V>
      requires Valid()
      reads this, entries
    {
      Contents(entries[..])
    }

    /** The number of keys a program sees is the number of keys there are. */
    lemma ActiveCountIsSize()
      requires Valid()
      ensures activeCount == |Map()|
    {
      LiveIsSize(entries[..]);
    }

    constructor (hash: K -> nat)
      ensures Valid() && Map() == map[] && this.hash == hash && fresh(entries)
    {
      this.hash := hash;
      count, activeCount := 0, 0;
      entries := new Slot<K, V>[0](i => Empty);
      new;
      NothingUsed(entries[..]);
    }

    lemma NothingCounted()
      requires Valid() && count == 0
      ensures Map() == map[]
    {
      NothingUsed(entries[..]);
    }

    method Get(key: K) returns (r: Option<V>)
      requires Valid()
      ensures r == if key in Map() then Some(Map()[key]) else None
    {
      if count == 0 {
        NothingCounted();
        return None;
      }
      var i := FindEntry(entries, hash, key);
      FoundIs(entries[..], hash, key, i);
      var entry := entries[i];
      r := if entry.Full? then Some(entry.value) else None;
    }

    method AdjustCapacity(capacity: nat)
      requires Sound(entries[..], hash) && Live(entries[..]) < capacity
      modifies this`count, this`entries
      ensures fresh(entries) && entries.Length == capacity && Sound(entries[..], hash)
      ensures Contents(entries[..]) == old(Contents(entries[..]))
      ensures Used(entries[..]) == count == Live(entries[..]) == old(Live(entries[..]))
    {
      ghost var s := entries[..];
      entries, count := Rehash(entries, hash, capacity);
      LiveIsSize(s);
      LiveIsSize(entries[..]);
    }

    method Set(key: K, value: V) returns (isNewKey: bool)
      requires Valid()
      modifies this, entries
      ensures Valid() && Map() == old(Map())[key := value] && isNewKey == (key !in old(Map()))
      ensures entries == old(entries) || fresh(entries)
    {
      CapacityChanges(entries.Length);
      if 4 * (count + 1) > 3 * entries.Length {
        AdjustCapacity(GrowCapacity(entries.Length));
      }
      isNewKey := Store(key, value);
    }

    method Store(key: K, value: V) returns (isNewKey: bool)
      requires Valid() && 4 * (count + 1) <= 3 * entries.Length
      modifies this`count, this`activeCount, entries
      ensures Valid() && Contents(entries[..]) == old(Contents(entries[..]))[key := value]
      ensures isNewKey == (key !in old(Contents(entries[..])))
    {
      ghost var s := entries[..];
      var i := FindEntry(entries, hash, key);
      PutKeeps(s, hash, key, value, i);
      UsedUpdate(s, i, Full(key, value));
      isNewKey := !entries[i].Full?;
      entries[i] := Full(key, value);
      assert entries[..] == s[i := Full(key, value)];
      if isNewKey {
        activeCount := activeCount + 1;
        count := count + 1;
      }
    }

    method Shrink()
      requires Valid() && count > 0
      modifies this`count, this`entries
      ensures Valid() && Map() == old(Map()) && (entries == old(entries) || fresh(entries))
    {
      if 4 * (count - 1) < entries.Length - 1 {
        CapacityChanges(entries.Length);
        AdjustCapacity(ShrinkCapacity(entries.Length));
      }
    }

    /** Leaves a tombstone, and halves the capacity once less than a quarter is counted. */
    method Delete(key: K) returns (deleted: bool)
      requires Valid()
      modifies this, entries
      ensures Valid() && deleted == (key in old(Map())) && Map() == old(Map()) - {key}
      ensures entries == old(entries) || fresh(entries)
    {
      ghost var s := entries[..];
      if count == 0 {
        NothingCounted();
        return false;
      }
      var i := FindEntry(entries, hash, key);
      FoundIs(s, hash, key, i);
      if !entries[i].Full? {
        assert Contents(s) - {key} == Contents(s);
        return false;
      }
      RemoveKeeps(s, hash, i);
      UsedUpdate(s, i, Tombstone);
      activeCount := activeCount - 1;
      entries[i] := Tombstone;
      assert entries[..] == s[i := Tombstone];
      Shrink();
      return true;
    }
  }

  // ---- runs ----

  datatype Op<K, V> = DoGet(key: K) | DoSet(key: K, value: V) | DoDelete(key: K)

  /** What a sequence of operations answers, on a plain map: the value found, the value stored, or
      whether there was something to delete. */
  datatype Answer<V> = Got(value: Option<V>) | WasNew(isNew: bool) | Deleted(deleted: bool)

  function AnswerOf<K(==), V>(m: map<K, V>, op: Op<K, V>): Answer<V> {
    match op
    case DoGet(k) => Got(if k in m then Some(m[k]) else None)
    case DoSet(k, _) => WasNew(k !in m)
    case DoDelete(k) => Deleted(k in m)
  }

  function Done<K(==), V>(m: map<K, V>, op: Op<K, V>): map<K, V> {
    match op
    case DoGet(_) => m
    case DoSet(k, v) => m[k := v]
    case DoDelete(k) => m - {k}
  }

  function Answers<K(==), V>(m: map<K, V>, ops: seq<Op<K, V>>): seq<Answer<V>>
    decreases ops
  {
    if ops == [] then [] else [AnswerOf(m, ops[0])] + Answers(Done(m, ops[0]), ops[1..])
  }

  method Perform<K(==), V>(dict: Dict<K, V>, op: Op<K, V>) returns (answer: Answer<V>)
    requires dict.Valid()
    modifies dict, dict.entries
    ensures dict.Valid() && answer == AnswerOf(old(dict.Map()), op) && dict.Map() == Done(old(dict.Map()), op)
    ensures dict.entries == old(dict.entries) || fresh(dict.entries)
  {
    hide Sound, Loaded, Used, Live;
    match op
    case DoGet(k) =>
      var r := dict.Get(k);
      answer := Got(r);
    case DoSet(k, v) =>
      var isNew := dict.Set(k, v);
      answer := WasNew(isNew);
    case DoDelete(k) =>
      var gone := dict.Delete(k);
      answer := Deleted(gone);
  }

  /** Over any run, whatever the hash function and however often the dictionary is resized, it answers
      like a plain map. */
  method Replay<K(==), V>(hash: K -> nat, ops: seq<Op<K, V>>) returns (answers: seq<Answer<V>>)
    ensures answers == Answers(map[], ops)
  {
    hide Sound, Loaded, Used, Live, AnswerOf, Done;
    var dict := new Dict<K, V>(hash);
    answers := [];
    assert ops[0..] == ops;
    for i := 0 to |ops|
      invariant dict.Valid() && fresh(dict) && fresh(dict.entries)
      invariant answers + Answers(dict.Map(), ops[i..]) == Answers(map[], ops)
    {
      assert ops[i..][1..] == ops[i + 1..];
      ghost var m := dict.Map();
      var answer := Perform(dict, ops[i]);
      answers := answers + [answer];
    }
    assert ops[|ops|..] == [];
  }

  method PerformOnTable<K(==), V>(table: Table<K, V>, op: Op<K, V>) returns (answer: Answer<V>)
    requires table.Valid()
    modifies table, table.entries
    ensures table.Valid() && answer == AnswerOf(old(table.Map()), op) && table.Map() == Done(old(table.Map()), op)
    ensures table.entries == old(table.entries) || fresh(table.entries)
  {
    hide Sound, Loaded, Used, Live;
    match op
    case DoGet(k) =>
      var r := table.Get(k);
      answer := Got(r);
    case DoSet(k, v) =>
      var isNew := table.Set(k, v);
      answer := WasNew(isNew);
    case DoDelete(k) =>
      var gone := table.Delete(k);
      answer := Deleted(gone);
  }

  /** The same of the string table, which never shrinks and counts its tombstones. */
  method ReplayOnTable<K(==), V>(hash: K -> nat, ops: seq<Op<K, V>>) returns (answers: seq<Answer<V>>)
    ensures answers == Answers(map[], ops)
  {
    hide Sound, Loaded, Used, Live, AnswerOf, Done;
    var table := new Table<K, V>(hash);
    answers := [];
    assert ops[0..] == ops;
    for i := 0 to |ops|
      invariant table.Valid() && fresh(table) && fresh(table.entries)
      invariant answers + Answers(table.Map(), ops[i..]) == Answers(map[], ops)
    {
      assert ops[i..][1..] == ops[i + 1..];
      ghost var m := table.Map();
      var answer := PerformOnTable(table, ops[i]);
      answers := answers + [answer];
    }
    assert ops[|ops|..] == [];
  }
}
