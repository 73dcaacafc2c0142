/** Linear probing: slots, where a key may sit, and what changing a slot does to the map the slots hold. */
module Probing {
  import opened Options

  /** An entry without a key is empty if its value is nil and a tombstone otherwise. */
  datatype Slot<K, V> = Empty | Tombstone | Full(key: K, value: V)

  // ---- positions ----

  /** `d` places behind `h`, wrapping around. */
  function Pos(h: nat, d: nat, n: nat): (p: nat)
    requires h < n && d < n
    ensures p < n
  {
    if h + d < n then h + d else h + d - n
  }

  /** How many places behind `h` position `i` lies. */
  function Dist(h: nat, i: nat, n: nat): (d: nat)
    requires h < n && i < n
    ensures d < n && Pos(h, d, n) == i
  {
    if h <= i then i - h else i - h + n
  }

  /** Where the search for a key begins; for the power-of-two capacities in use this is a bit mask. */
  function Home<K>(hash: K -> nat, k: K, n: nat): (h: nat)
    requires n > 0
    ensures h < n
  {
    hash(k) % n
  }

  // ---- what slots hold ----

  predicate Unique<K(==), V>(s: seq<Slot<K, V>>) {
    forall i, j :: 0 <= i < j < |s| && s[i].Full? && s[j].Full? ==> s[i].key != s[j].key
  }

  /** No empty slot lies on the way from `h` to `i`. */
  predicate Open<K, V>(s: seq<Slot<K, V>>, h: nat, i: nat)
    requires h < |s| && i < |s|
  {
    forall d :: 0 <= d < Dist(h, i, |s|) ==> !s[Pos(h, d, |s|)].Empty?
  }

  /** Every key can be found by probing from its home. */
  predicate Sound<K(==), V>(s: seq<Slot<K, V>>, hash: K -> nat) {
    Unique(s) && forall i :: 0 <= i < |s| && s[i].Full? ==> Open(s, Home(hash, s[i].key, |s|), i)
  }

  ghost function Contents<K, V>(s: seq<Slot<K, V>>): map<K, V>
    requires Unique(s)
  {
    map i | 0 <= i < |s| && s[i].Full? :: s[i].key := s[i].value
  }

  /** Slots that are not empty: live entries and tombstones. */
  function Used<K, V>(s: seq<Slot<K, V>>): (n: nat)
    ensures n <= |s|
  {
    if s == [] then 0 else Used(s[..|s| - 1]) + if s[|s| - 1].Empty? then 0 else 1
  }

  function Live<K, V>(s: seq<Slot<K, V>>): (n: nat)
    ensures n <= Used(s)
  {
    if s == [] then 0 else Live(s[..|s| - 1]) + if s[|s| - 1].Full? then 1 else 0
  }

  // ---- counting ----

  lemma {:induction false} UsedUpdate<K, V>(s: seq<Slot<K, V>>, i: nat, x: Slot<K, V>)
    requires i < |s|
    ensures Used(s[i := x]) == Used(s) - (if s[i].Empty? then 0 else 1) + (if x.Empty? then 0 else 1)
    ensures Live(s[i := x]) == Live(s) - (if s[i].Full? then 1 else 0) + (if x.Full? then 1 else 0)
    decreases |s|
  {
    var n := |s| - 1;
    if i < n {
      assert s[i := x][..n] == s[..n][i := x];
      UsedUpdate(s[..n], i, x);
    } else {
      assert s[i := x][..n] == s[..n];
    }
  }

  /** Probing comes to an end: some slot is empty unless all are used. */
  lemma {:induction false} SomeEmpty<K, V>(s: seq<Slot<K, V>>) returns (i: nat)
    requires Used(s) < |s|
    ensures i < |s| && s[i].Empty?
    decreases |s|
  {
    if s[|s| - 1].Empty? { return |s| - 1; }
    i := SomeEmpty(s[..|s| - 1]);
  }

  lemma {:induction false} AllEmpty<K, V>(s: seq<Slot<K, V>>)
    requires forall i :: 0 <= i < |s| ==> s[i].Empty?
    ensures Used(s) == 0 && Live(s) == 0
    decreases |s|
  {
    if s != [] { AllEmpty(s[..|s| - 1]); }
  }

  // ---- searching ----

  /** What a search for `key` finds: its slot, or else a slot where it could be put. */
  predicate Found<K(==), V>(s: seq<Slot<K, V>>, hash: K -> nat, key: K, r: nat)
    requires |s| > 0
  {
    && r < |s|
    && if s[r].Full? then s[r].key == key
       else (forall i :: 0 <= i < |s| && s[i].Full? ==> s[i].key != key) && Open(s, Home(hash, key, |s|), r)
  }

  /** The first `d` places from home hold neither the key nor an empty slot. */
  predicate Passed<K(==), V>(s: seq<Slot<K, V>>, h: nat, key: K, d: nat)
    requires h < |s| && d <= |s|
  {
    forall e :: 0 <= e < d ==> !s[Pos(h, e, |s|)].Empty? && (s[Pos(h, e, |s|)].Full? ==> s[Pos(h, e, |s|)].key != key)
  }

  lemma NotThere<K, V>(s: seq<Slot<K, V>>, hash: K -> nat, key: K, d: nat)
    requires Sound(s, hash) && d < |s| && Passed(s, Home(hash, key, |s|), key, d) && s[Pos(Home(hash, key, |s|), d, |s|)].Empty?
    ensures forall i :: 0 <= i < |s| && s[i].Full? ==> s[i].key != key
  {
    var h := Home(hash, key, |s|);
    forall i | 0 <= i < |s| && s[i].Full?
      ensures s[i].key != key
    {
      var own := Home(hash, s[i].key, |s|);
      assert Open(s, own, i);
      assert s[Pos(own, Dist(own, i, |s|), |s|)] == s[i];
    }
  }

  lemma PassedIsOpen<K, V>(s: seq<Slot<K, V>>, h: nat, key: K, d: nat, r: nat)
    requires h < |s| && d < |s| && Passed(s, h, key, d) && r < |s| && Dist(h, r, |s|) <= d
    ensures Open(s, h, r)
  {
  }

  lemma NotLast<K, V>(s: seq<Slot<K, V>>, h: nat, key: K, d: nat, stop: nat)
    requires h < |s| && d < |s| && Passed(s, h, key, d) && !s[Pos(h, d, |s|)].Empty? && stop < |s| && s[stop].Empty?
    ensures d < |s| - 1
  {
    var e := Dist(h, stop, |s|);
    assert s[Pos(h, e, |s|)] == s[stop];
  }

  method FindEntry<K(==), V>(entries: array<Slot<K, V>>, hash: K -> nat, key: K) returns (r: nat)
    requires Sound(entries[..], hash) && Used(entries[..]) < entries.Length
    ensures Found(entries[..], hash, key, r)
  {
    ghost var s, n := entries[..], entries.Length;
    ghost var h := Home(hash, key, n);
    var index := hash(key) % entries.Length;
    var tombstone: Option<nat> := None;
    ghost var d := 0;
    ghost var stop := SomeEmpty(s);
    while true
      invariant 0 <= d < n && index == Pos(h, d, n) && Passed(s, h, key, d)
      invariant tombstone.Some? ==>
                  tombstone.value < n && s[tombstone.value].Tombstone? && Dist(h, tombstone.value, n) < d
      decreases n - d
    {
      var entry := entries[index];
      if entry.Empty? {
        NotThere(s, hash, key, d);
        r := if tombstone.Some? then tombstone.value else index;
        PassedIsOpen(s, h, key, d, r);
        return;
      }
      if entry.Tombstone? {
        if tombstone.None? { tombstone := Some(index); }
      } else if entry.key == key {
        return index;
      }
      NotLast(s, h, key, d, stop);
      index := if index + 1 == entries.Length then 0 else index + 1;
      d := d + 1;
    }
  }

  // ---- updating ----

  /** Storing under `key` in the slot a search for it found. */
  lemma PutKeeps<K, V>(s: seq<Slot<K, V>>, hash: K -> nat, key: K, v: V, r: nat)
    requires |s| > 0 && Sound(s, hash) && Found(s, hash, key, r)
    ensures Sound(s[r := Full(key, v)], hash) && Contents(s[r := Full(key, v)]) == Contents(s)[key := v]
    ensures s[r].Full? <==> key in Contents(s)
  {
    var t := s[r := Full(key, v)];
    PutUnique(s, hash, key, v, r);
    forall i | 0 <= i < |t| && t[i].Full?
      ensures Open(t, Home(hash, t[i].key, |t|), i)
    {
      if i != r || s[r].Full? { assert Open(s, Home(hash, s[i].key, |s|), i); }
    }
    PutContents(s, hash, key, v, r);
  }

  lemma PutUnique<K, V>(s: seq<Slot<K, V>>, hash: K -> nat, key: K, v: V, r: nat)
    requires |s| > 0 && Unique(s) && Found(s, hash, key, r)
    ensures Unique(s[r := Full(key, v)])
  {
  }

  lemma PutContents<K, V>(s: seq<Slot<K, V>>, hash: K -> nat, key: K, v: V, r: nat)
    requires |s| > 0 && Unique(s) && Found(s, hash, key, r) && Unique(s[r := Full(key, v)])
    ensures Contents(s[r := Full(key, v)]) == Contents(s)[key := v]
    ensures s[r].Full? <==> key in Contents(s)
  {
    var t := s[r := Full(key, v)];
    var m, m' := Contents(s), Contents(t);
    forall k | k in m' || k in m || k == key
      ensures k in m' && k in m[key := v] && m'[k] == m[key := v][k]
    {
      if k == key {
        assert t[r].key == key;
      } else if k in m {
        var i :| 0 <= i < |s| && s[i].Full? && s[i].key == k;
        assert t[i] == s[i];
      }
    }
  }

  /** A tombstone keeps every other key findable. */
  lemma RemoveKeeps<K, V>(s: seq<Slot<K, V>>, hash: K -> nat, r: nat)
    requires Sound(s, hash) && r < |s| && s[r].Full?
    ensures Sound(s[r := Tombstone], hash) && Contents(s[r := Tombstone]) == Contents(s) - {s[r].key}
  {
    var t := s[r := Tombstone];
    forall i | 0 <= i < |t| && t[i].Full?
      ensures Open(t, Home(hash, t[i].key, |t|), i)
    {
      assert Open(s, Home(hash, s[i].key, |s|), i);
    }
    forall k | k in Contents(s) && k != s[r].key
      ensures k in Contents(t)
    {
      var i :| 0 <= i < |s| && s[i].Full? && s[i].key == k;
      assert t[i] == s[i];
    }
  }

  /** What a search says about the map. */
  lemma FoundIs<K, V>(s: seq<Slot<K, V>>, hash: K -> nat, key: K, r: nat)
    requires |s| > 0 && Unique(s) && Found(s, hash, key, r)
    ensures s[r].Full? <==> key in Contents(s)
    ensures s[r].Full? ==> Contents(s)[key] == s[r].value
  {
  }

  lemma {:induction false} NothingUsed<K, V>(s: seq<Slot<K, V>>)
    requires Live(s) == 0 && Unique(s)
    ensures Contents(s) == map[]
    decreases |s|
  {
    if s != [] {
      assert s == s[..|s| - 1] + [s[|s| - 1]];
      NothingUsed(s[..|s| - 1]);
      ContentsStep(s, |s| - 1);
      assert s[..|s|] == s;
    }
  }

  /** The first `i + 1` slots hold what the first `i` hold and the entry of slot `i`. */
  lemma ContentsStep<K, V>(s: seq<Slot<K, V>>, i: nat)
    requires i < |s| && Unique(s)
    ensures Unique(s[..i]) && Unique(s[..i + 1])
    ensures Contents(s[..i + 1]) == if s[i].Full? then Contents(s[..i])[s[i].key := s[i].value] else Contents(s[..i])
    ensures s[i].Full? ==> s[i].key !in Contents(s[..i])
    ensures Live(s[..i + 1]) == Live(s[..i]) + if s[i].Full? then 1 else 0
  {
    assert s[..i + 1][..i] == s[..i] && s[..i + 1] == s[..i] + [s[i]];
    PrefixUnique(s, i + 1);
    ContentsPush(s[..i], s[i], s[..i + 1]);
  }

  lemma PrefixUnique<K, V>(s: seq<Slot<K, V>>, i: nat)
    requires i <= |s| && Unique(s)
    ensures Unique(s[..i])
  {
    forall j, k | 0 <= j < k < i && s[..i][j].Full? && s[..i][k].Full?
      ensures s[..i][j].key != s[..i][k].key
    {
      assert s[..i][j] == s[j] && s[..i][k] == s[k];
    }
  }

  lemma ContentsPush<K, V>(a: seq<Slot<K, V>>, x: Slot<K, V>, b: seq<Slot<K, V>>)
    requires b == a + [x] && Unique(b)
    ensures Unique(a) && (x.Full? ==> x.key !in Contents(a))
    ensures Contents(b) == if x.Full? then Contents(a)[x.key := x.value] else Contents(a)
  {
    PushUnique(a, x, b);
    forall k | k in Contents(b)
      ensures k in Contents(a) || (x.Full? && k == x.key)
    {
      var j :| 0 <= j < |b| && b[j].Full? && b[j].key == k;
      if j < |a| { assert a[j] == b[j]; }
    }
    forall k | k in Contents(a)
      ensures k in Contents(b)
    {
      var j :| 0 <= j < |a| && a[j].Full? && a[j].key == k;
      assert b[j] == a[j];
    }
    if x.Full? { assert b[|a|].key in Contents(b); }
  }

  lemma PushUnique<K, V>(a: seq<Slot<K, V>>, x: Slot<K, V>, b: seq<Slot<K, V>>)
    requires b == a + [x] && Unique(b)
    ensures Unique(a) && (x.Full? ==> x.key !in Contents(a))
  {
    forall i, j | 0 <= i < j < |a| && a[i].Full? && a[j].Full?
      ensures a[i].key != a[j].key
    {
      assert b[i] == a[i] && b[j] == a[j];
    }
    forall i | 0 <= i < |a| && a[i].Full? && x.Full?
      ensures a[i].key != x.key
    {
      assert b[i] == a[i] && b[|a|] == x;
    }
  }

  lemma {:induction false} LiveIsSize<K, V>(s: seq<Slot<K, V>>)
    requires Unique(s)
    ensures |Contents(s)| == Live(s)
    decreases |s|
  {
    if s != [] {
      ContentsStep(s, |s| - 1);
      assert s[..|s|] == s;
      LiveIsSize(s[..|s| - 1]);
    }
  }

  /** Moves all live entries into a fresh array; tombstones are left behind. */
  method Rehash<K(==), V>(entries: array<Slot<K, V>>, hash: K -> nat, capacity: nat)
    returns (grown: array<Slot<K, V>>, count: nat)
    requires Sound(entries[..], hash) && Live(entries[..]) < capacity
    ensures fresh(grown) && grown.Length == capacity && Sound(grown[..], hash)
    ensures Contents(grown[..]) == Contents(entries[..]) && Used(grown[..]) == count == Live(entries[..])
  {
    ghost var s := entries[..];
    grown := new Slot<K, V>[capacity](i => Empty);
    count := 0;
    AllEmpty(grown[..]);
    NothingUsed(grown[..]);
    assert s[..0] == [] && Contents(s[..0]) == map[];
    for i := 0 to entries.Length
      invariant Sound(grown[..], hash) && Contents(grown[..]) == Contents(s[..i])
      invariant Used(grown[..]) == Live(grown[..]) == count == Live(s[..i])
    {
      ContentsStep(s, i);
      LivePrefix(s, i + 1);
      var entry := entries[i];
      if entry.Full? {
        var dest := FindEntry(grown, hash, entry.key);
        ghost var t := grown[..];
        PutKeeps(t, hash, entry.key, entry.value, dest);
        assert !t[dest].Full?;
        TombstoneFree(t, dest);
        UsedUpdate(t, dest, entry);
        grown[dest] := entry;
        assert grown[..] == t[dest := entry];
        count := count + 1;
      }
    }
    assert s[..entries.Length] == s;
  }

  lemma {:induction false} LivePrefix<K, V>(s: seq<Slot<K, V>>, i: nat)
    requires i <= |s|
    ensures Live(s[..i]) <= Live(s)
    decreases |s|
  {
    if i < |s| {
      LivePrefix(s[..|s| - 1], i);
      assert s[..|s| - 1][..i] == s[..i];
    } else {
      assert s[..i] == s;
    }
  }

  lemma {:induction false} TombstoneFree<K, V>(s: seq<Slot<K, V>>, i: nat)
    requires i < |s| && Used(s) == Live(s)
    ensures !s[i].Tombstone?
    decreases |s|
  {
    if i < |s| - 1 { TombstoneFree(s[..|s| - 1], i); }
  }
}
