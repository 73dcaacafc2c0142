/** Interned strings: one string object per contents, kept in a weak table. */
module Interning {
  import opened Options
  import opened Probing
  import opened HashTables

  type Byte = b: int | 0 <= b < 256

  /** A string object: where it is, and what it says. Two of them are the same object if they have the same address. */
  datatype Str = Str(address: nat, chars: seq<Byte>)

  /** Object identity is equality of contents. */
  ghost predicate Interned(m: map<Str, ()>) {
    forall s, t :: s in m && t in m && s.chars == t.chars ==> s == t
  }

  lemma InternedLess(m: map<Str, ()>, less: map<Str, ()>)
    requires Interned(m) && less.Keys <= m.Keys
    ensures Interned(less)
  {
  }

  /** No address has been given to two different strings. */
  ghost predicate ByAddress(ever: set<Str>, next: nat) {
    && (forall s :: s in ever ==> s.address < next)
    && forall s, t :: s in ever && t in ever && s.address == t.address ==> s == t
  }

  lemma NewAddress(ever: set<Str>, next: nat, s: Str)
    requires ByAddress(ever, next) && s.address == next
    ensures s !in ever && ByAddress(ever + {s}, next + 1)
  {
  }

  lemma InternedMore(m: map<Str, ()>, more: map<Str, ()>, s: Str)
    requires Interned(m) && more.Keys == m.Keys + {s} && forall t :: t in m ==> t.chars != s.chars
    ensures Interned(more)
  {
  }

  class Strings {
    /** Any function of the characters; it is stored in the string when that is made. */
    const hashString: seq<Byte> -> nat
    const table: Table<Str, ()>
    var next: nat
    /** All strings ever made, forgotten ones too. */
    ghost var ever: set<Str>

    ghost predicate Valid()
      reads this, table, table.entries
    {
      && table.Valid() && (forall s: Str :: table.hash(s) == hashString(s.chars))
      && Interned(table.Map()) && table.Map().Keys <= ever && ByAddress(ever, next)
    }

    constructor (hashString: seq<Byte> -> nat)
      ensures Valid() && table.Map() == map[] && this.hashString == hashString && fresh(table) && fresh(table.entries)
    {
      this.hashString := hashString;
      table := new Table((s: Str) => hashString(s.chars));
      next, ever := 0, {};
    }

    /** Searches by contents, so that no string object is needed to search for one. */
    method FindString(chars: seq<Byte>) returns (r: Option<Str>)
      requires Valid()
      ensures r.Some? ==> r.value in table.Map() && r.value.chars == chars
      ensures r.None? ==> forall s :: s in table.Map() ==> s.chars != chars
    {
      hide Interned, ByAddress;
      if table.count == 0 {
        table.NothingCounted();
        return None;
      }
      var hash := hashString(chars);
      ghost var s, n := table.entries[..], table.entries.Length;
      var index := hash % table.entries.Length;
      ghost var h, d := index, 0;
      ghost var stop := SomeEmpty(s);
      while true
        invariant 0 <= d < n && index == Pos(h, d, n) && Unlike(s, h, chars, d)
        decreases n - d
      {
        var entry := table.entries[index];
        if entry.Empty? {
          NotInterned(s, table.hash, hashString, chars, d);
          return None;
        }
        if entry.Full? && entry.key.chars == chars {
          assert s[index].key in Contents(s);
          return Some(entry.key);
        }
        NotYetAround(s, h, chars, d, stop);
        index := if index + 1 == table.entries.Length then 0 else index + 1;
        d := d + 1;
      }
    }

    /** The string object for `chars`: the one there is, or a new one. */
    method CopyString(chars: seq<Byte>) returns (s: Str)
      requires Valid()
      modifies this, table, table.entries
      ensures Valid() && s.chars == chars && s in table.Map()
      ensures table.Map().Keys == old(table.Map().Keys) + {s}
      ensures table.entries == old(table.entries) || fresh(table.entries)
      ensures (exists t :: t in old(table.Map()) && t.chars == chars) <==> s in old(table.Map())
      ensures ever == old(ever) + {s} && (s in old(ever) <==> s in old(table.Map()))
    {
      hide Interned, ByAddress, Sound, Loaded, Used, Live;
      var found := FindString(chars);
      if found.Some? {
        s := found.value;
      } else {
        s := AllocateString(chars);
      }
    }

    /** A new object, which is entered. */
    method AllocateString(chars: seq<Byte>) returns (s: Str)
      requires Valid() && forall t :: t in table.Map() ==> t.chars != chars
      modifies this, table, table.entries
      ensures Valid() && s.chars == chars && s !in old(table.Map()) && s !in old(ever) && ever == old(ever) + {s}
      ensures table.Map().Keys == old(table.Map().Keys) + {s}
      ensures table.entries == old(table.entries) || fresh(table.entries)
    {
      hide Interned, ByAddress, Sound, Loaded, Used, Live;
      ghost var m := table.Map();
      s := Str(next, chars);
      NewAddress(ever, next, s);
      next, ever := next + 1, ever + {s};
      var _ := table.Set(s, ());
      InternedMore(m, table.Map(), s);
    }

    /** After marking, strings that were not reached are forgotten before they are freed. */
    method RemoveWhite(dark: set<Str>)
      requires Valid()
      modifies table.entries
      ensures Valid() && table.Map().Keys == old(table.Map().Keys) * dark
    {
      hide Sound, Loaded, Used, Live, Interned, ByAddress;
      ghost var m := table.Map();
      for i := 0 to table.entries.Length
        invariant Valid() && table.Map().Keys <= m.Keys && m.Keys * dark <= table.Map().Keys
        invariant forall k :: 0 <= k < i && table.entries[k].Full? ==> table.entries[k].key in dark
      {
        var entry := table.entries[i];
        if entry.Full? && entry.key !in dark {
          assert entry.key in table.Map();
          ghost var before := table.Map();
          var _ := table.Delete(entry.key);
          InternedLess(before, table.Map());
        }
      }
    }
  }

  /** None of the first `d` places holds a string with these characters, and none is empty. */
  ghost predicate Unlike(s: seq<Slot<Str, ()>>, h: nat, chars: seq<Byte>, d: nat)
    requires h < |s| && d <= |s|
  {
    forall e :: 0 <= e < d ==> !s[Pos(h, e, |s|)].Empty? && (s[Pos(h, e, |s|)].Full? ==> s[Pos(h, e, |s|)].key.chars != chars)
  }

  lemma NotInterned(s: seq<Slot<Str, ()>>, hash: Str -> nat, hashString: seq<Byte> -> nat, chars: seq<Byte>, d: nat)
    requires |s| > 0 && Sound(s, hash) && (forall t: Str :: hash(t) == hashString(t.chars)) && d < |s|
    requires var h := hashString(chars) % |s|; Unlike(s, h, chars, d) && s[Pos(h, d, |s|)].Empty?
    ensures forall t :: t in Contents(s) ==> t.chars != chars
  {
    forall t | t in Contents(s)
      ensures t.chars != chars
    {
      var i :| 0 <= i < |s| && s[i].Full? && s[i].key == t;
      var own := Home(hash, t, |s|);
      assert Open(s, own, i);
      assert s[Pos(own, Dist(own, i, |s|), |s|)] == s[i];
    }
  }

  lemma NotYetAround(s: seq<Slot<Str, ()>>, h: nat, chars: seq<Byte>, d: nat, stop: nat)
    requires h < |s| && d < |s| && Unlike(s, h, chars, d) && !s[Pos(h, d, |s|)].Empty? && stop < |s| && s[stop].Empty?
    ensures d < |s| - 1
  {
    assert s[Pos(h, Dist(h, stop, |s|), |s|)] == s[stop];
  }

  // ---- runs ----

  datatype Step = Make(chars: seq<Byte>) | Collect(dark: set<Str>)

  /** No collection after step `i` and before step `j` forgot `s`. */
  ghost predicate Kept(steps: seq<Step>, s: Str, i: nat, j: nat)
    requires j <= |steps|
  {
    forall k :: i < k < j && steps[k].Collect? ==> s in steps[k].dark
  }

  /** What each step made. */
  predicate Answers(steps: seq<Step>, made: seq<Option<Str>>) {
    |made| <= |steps| && forall i :: 0 <= i < |made| ==>
      if steps[i].Make? then made[i].Some? && made[i].value.chars == steps[i].chars else made[i].None?
  }

  /** Every string that was kept is still in the table. */
  ghost predicate Present(steps: seq<Step>, made: seq<Option<Str>>, m: map<Str, ()>)
    requires |made| <= |steps|
  {
    forall i :: 0 <= i < |made| && made[i].Some? && Kept(steps, made[i].value, i, |made|) ==> made[i].value in m
  }

  /** Strings are the same object, at one address, exactly if they say the same. */
  ghost predicate SameIffEqual(steps: seq<Step>, made: seq<Option<Str>>)
    requires |made| <= |steps|
  {
    forall i, j :: 0 <= i < j < |made| && made[i].Some? && made[j].Some? && Kept(steps, made[i].value, i, j) ==>
      (made[i].value.address == made[j].value.address <==> made[i].value.chars == made[j].value.chars)
  }

  lemma KeptLess(steps: seq<Step>, s: Str, i: nat, j: nat)
    requires j < |steps| && Kept(steps, s, i, j + 1)
    ensures Kept(steps, s, i, j) && (i < j && steps[j].Collect? ==> s in steps[j].dark)
  {
  }

  /** Every string that was made is one of these. */
  ghost predicate Among(made: seq<Option<Str>>, ever: set<Str>) {
    forall i :: 0 <= i < |made| && made[i].Some? ==> made[i].value in ever
  }

  lemma AfterMake(steps: seq<Step>, made: seq<Option<Str>>, m: map<Str, ()>, s: Str, m': map<Str, ()>, ever: set<Str>, next: nat)
    requires |made| < |steps| && Present(steps, made, m) && SameIffEqual(steps, made)
    requires s in m' && Interned(m') && m.Keys <= m'.Keys
    requires Among(made, ever) && s in ever && ByAddress(ever, next)
    ensures Present(steps, made + [Some(s)], m') && SameIffEqual(steps, made + [Some(s)])
  {
    var made' := made + [Some(s)];
    forall i | 0 <= i < |made'| && made'[i].Some? && Kept(steps, made'[i].value, i, |made'|)
      ensures made'[i].value in m'
    {
      if i < |made| {
        KeptLess(steps, made[i].value, i, |made|);
        assert made[i].value in m.Keys;
      }
    }
    forall i, j | 0 <= i < j < |made'| && made'[i].Some? && made'[j].Some? && Kept(steps, made'[i].value, i, j)
      ensures made'[i].value.address == made'[j].value.address <==> made'[i].value.chars == made'[j].value.chars
    {
      if j < |made| {
        assert made'[i] == made[i] && made'[j] == made[j];
      } else {
        assert made[i].value in m.Keys;
      }
    }
  }

  lemma AfterCollect(steps: seq<Step>, made: seq<Option<Str>>, m: map<Str, ()>, m': map<Str, ()>)
    requires |made| < |steps| && Present(steps, made, m) && SameIffEqual(steps, made)
    requires steps[|made|].Collect? && m'.Keys == m.Keys * steps[|made|].dark
    ensures Present(steps, made + [None], m') && SameIffEqual(steps, made + [None])
  {
    var made' := made + [None];
    forall i | 0 <= i < |made'| && made'[i].Some? && Kept(steps, made'[i].value, i, |made'|)
      ensures made'[i].value in m'
    {
      KeptLess(steps, made[i].value, i, |made|);
      assert made[i].value in m.Keys && made[i].value in m'.Keys;
    }
    forall i, j | 0 <= i < j < |made'| && made'[i].Some? && made'[j].Some? && Kept(steps, made'[i].value, i, j)
      ensures made'[i].value.address == made'[j].value.address <==> made'[i].value.chars == made'[j].value.chars
    {
      assert made'[i] == made[i] && made'[j] == made[j];
    }
  }

  /** Any run of making strings and collecting: as long as a string is kept alive, whoever asks for its contents
      gets the same object, and everybody else another one. */
  method Run(hashString: seq<Byte> -> nat, steps: seq<Step>) returns (made: seq<Option<Str>>)
    ensures |made| == |steps| && Answers(steps, made) && SameIffEqual(steps, made)
  {
    hide Present, SameIffEqual, Interned, Answers, Among, ByAddress;
    var strings := new Strings(hashString);
    made := [];
    NothingMade(steps, strings.table.Map(), strings.ever);
    for n := 0 to |steps|
      invariant n == |made| && strings.Valid() && fresh(strings) && fresh(strings.table) && fresh(strings.table.entries)
      invariant Answers(steps, made) && Present(steps, made, strings.table.Map()) && SameIffEqual(steps, made)
      invariant Among(made, strings.ever)
    {
      ghost var m, before := strings.table.Map(), strings.ever;
      match steps[n]
      case Make(chars) =>
        var s := strings.CopyString(chars);
        AmongMore(made, before, strings.ever, Some(s));
        AfterMake(steps, made, m, s, strings.table.Map(), strings.ever, strings.next);
        AnswersMore(steps, made, Some(s));
        made := made + [Some(s)];
      case Collect(dark) =>
        strings.RemoveWhite(dark);
        AfterCollect(steps, made, m, strings.table.Map());
        AmongMore(made, before, strings.ever, None);
        AnswersMore(steps, made, None);
        made := made + [None];
    }
  }

  lemma NothingMade(steps: seq<Step>, m: map<Str, ()>, ever: set<Str>)
    ensures Answers(steps, []) && Present(steps, [], m) && SameIffEqual(steps, []) && Among([], ever)
  {
  }

  lemma AmongMore(made: seq<Option<Str>>, ever: set<Str>, more: set<Str>, s: Option<Str>)
    requires Among(made, ever) && ever <= more && (s.Some? ==> s.value in more)
    ensures Among(made, more) && Among(made + [s], more)
  {
  }

  lemma AnswersMore(steps: seq<Step>, made: seq<Option<Str>>, s: Option<Str>)
    requires |made| < |steps| && Answers(steps, made)
    requires var step := steps[|made|]; if step.Make? then s.Some? && s.value.chars == step.chars else s.None?
    ensures Answers(steps, made + [s])
  {
  }
}
