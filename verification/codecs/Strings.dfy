/** Strings of the language: bytes with a character count, subscripts and slices by character. */
module Strings {
  import opened Options
  import opened Utf8

  const SIZE_MAX: nat := 0xFFFF_FFFF_FFFF_FFFF

  /** `characterLength` is -1 for a string that is not valid UTF-8. */
  datatype ObjString = ObjString(chars: seq<Byte>, characterLength: int) {
    /** The bytes as they lie in memory. */
    function Memory(): (m: seq<Byte>)
      ensures 0 in m
    {
      assert (chars + [0])[|chars|] == 0;
      chars + [0]
    }

    function Length(): int {
      if characterLength == -1 then |chars| else characterLength
    }

    /** Characters and bytes differ. */
    predicate Wide() {
      characterLength != -1 && characterLength != |chars|
    }
  }

  // ---- the characters of a string ----

  /** The sequences of a text, one for each code point. */
  function Pieces(t: seq<Byte>): (r: seq<seq<Byte>>)
    requires WellFormed(t)
    ensures |r| == |DecodeAll(t)|
  {
    if t == [] then []
    else
      var n := SequenceLength(t[0]);
      [t[..n]] + Pieces(t[n..])
  }

  function Singles(s: seq<Byte>): (r: seq<seq<Byte>>)
    ensures |r| == |s|
  {
    if s == [] then [] else [[s[0]]] + Singles(s[1..])
  }

  function Concat(us: seq<seq<Byte>>): seq<Byte> {
    if us == [] then [] else us[0] + Concat(us[1..])
  }

  function TextOf(chars: seq<Byte>): (t: seq<Byte>)
    ensures |t| <= |chars| && t == chars[..|t|] && (t == chars <==> 0 !in chars)
  {
    var m := ObjString(chars, 0).Memory();
    var t := Text(m);
    assert t == m[..|t|] == chars[..|t|];
    assert |t| < |chars| ==> chars[|t|] == m[|t|] == 0;
    t
  }

  /** Code points up to the first NUL where those are valid and not as many as there are bytes; single bytes otherwise. */
  function Units(chars: seq<Byte>): seq<seq<Byte>> {
    var t := TextOf(chars);
    if WellFormed(t) && |DecodeAll(t)| != |chars| then Pieces(t) else Singles(chars)
  }

  /** What every string object satisfies. */
  predicate IsString(s: ObjString) {
    var t := TextOf(s.chars);
    s.characterLength == if WellFormed(t) then |DecodeAll(t)| else -1
  }

  method Allocate(chars: seq<Byte>) returns (s: ObjString)
    requires |chars| < SIZE_MAX
    ensures s.chars == chars && IsString(s)
  {
    hide WellFormed;
    var memory := ObjString(chars, 0).Memory();
    var ok, at := NValid(memory, SIZE_MAX);
    var characterLength: int := -1;
    if ok {
      WithinAll(Text(memory), SIZE_MAX);
      assert Text(memory)[0..] == Text(memory);
      WalkIsWithin(memory, 0, SIZE_MAX);
      characterLength := NLen(memory, SIZE_MAX);
    }
    return ObjString(chars, characterLength);
  }

  lemma UnitsLength(s: ObjString)
    requires IsString(s)
    ensures |Units(s.chars)| == s.Length()
    ensures Units(s.chars) == if s.Wide() then Pieces(TextOf(s.chars)) else Singles(s.chars)
    ensures s.Wide() ==> WellFormed(TextOf(s.chars))
  {
  }

  // ---- concatenation ----

  lemma {:induction false} ConcatAppend(us: seq<seq<Byte>>, vs: seq<seq<Byte>>)
    ensures Concat(us + vs) == Concat(us) + Concat(vs)
  {
    if us == [] {
      assert us + vs == vs;
    } else {
      ConcatAppend(us[1..], vs);
      assert (us + vs)[1..] == us[1..] + vs;
    }
  }

  lemma {:induction false} ConcatPieces(t: seq<Byte>)
    requires WellFormed(t)
    ensures Concat(Pieces(t)) == t
  {
    hide Sequence, SequenceLength;
    if t != [] {
      var n := SequenceLength(t[0]);
      ConcatPieces(t[n..]);
      assert Pieces(t)[1..] == Pieces(t[n..]) && t == t[..n] + t[n..];
    }
  }

  lemma {:induction false} ConcatSingles(s: seq<Byte>)
    ensures Concat(Singles(s)) == s
  {
    if s != [] {
      ConcatSingles(s[1..]);
      assert Singles(s)[1..] == Singles(s[1..]) && s == [s[0]] + s[1..];
    }
  }

  lemma {:induction false} SinglesIndex(s: seq<Byte>, i: nat)
    requires i < |s|
    ensures Singles(s)[i] == [s[i]]
  {
    if i > 0 {
      SinglesIndex(s[1..], i - 1);
      assert Singles(s)[i] == Singles(s[1..])[i - 1];
    }
  }

  lemma SinglesSlice(s: seq<Byte>, i: nat, j: nat)
    requires i <= j <= |s|
    ensures Concat(Singles(s)[i..j]) == s[i..j]
  {
    hide Singles, Concat;
    forall k | 0 <= k < j - i
      ensures Singles(s)[i..j][k] == Singles(s[i..j])[k]
    {
      SinglesIndex(s, i + k);
      SinglesIndex(s[i..j], k);
    }
    assert Singles(s)[i..j] == Singles(s[i..j]);
    ConcatSingles(s[i..j]);
  }

  // ---- what a string loses ----

  /** The bytes from a NUL on belong to no character of a string that is valid up to there. */
  predicate HidesBytes(chars: seq<Byte>) {
    0 in chars && WellFormed(TextOf(chars))
  }

  /** The characters together are the string, unless it hides bytes. */
  lemma UnitsConcat(chars: seq<Byte>)
    ensures Concat(Units(chars)) == chars <==> !HidesBytes(chars)
  {
    var t := TextOf(chars);
    ConcatSingles(chars);
    if WellFormed(t) {
      ConcatPieces(t);
      DecodedShorter(t);
    }
  }

  lemma {:induction false} DecodedShorter(t: seq<Byte>)
    requires WellFormed(t)
    ensures |DecodeAll(t)| <= |t|
  {
    hide Sequence, SequenceLength, Decode;
    if t != [] { DecodedShorter(t[SequenceLength(t[0])..]); }
  }

  // ---- subscripts and slices ----

  /** `index` characters have been passed, and the text goes on at `at`. */
  ghost predicate Passed(t: seq<Byte>, index: nat, at: nat) {
    && WellFormed(t) && at <= |t| && WellFormed(t[at..]) && index <= |Pieces(t)|
    && Pieces(t[at..]) == Pieces(t)[index..] && t[..at] == Concat(Pieces(t)[..index])
  }

  lemma PassedStart(t: seq<Byte>)
    requires WellFormed(t)
    ensures Passed(t, 0, 0)
  {
    assert t[0..] == t && Pieces(t)[0..] == Pieces(t);
  }

  lemma PiecesHead(u: seq<Byte>)
    requires WellFormed(u) && u != []
    ensures var n := SequenceLength(u[0]);
            Starts(u) && WellFormed(u[n..]) && Pieces(u)[0] == u[..n] && Pieces(u)[1..] == Pieces(u[n..])
  {
    hide Sequence, SequenceLength;
  }

  /** One character moves from what is left to what has been passed. */
  lemma MoveOne(t: seq<Byte>, us: seq<seq<Byte>>, index: nat, at: nat, n: nat)
    requires index < |us| && at + n <= |t| && t[..at] == Concat(us[..index]) && us[index] == t[at..][..n]
    ensures t[..at + n] == Concat(us[..index + 1]) && us[index..][1..] == us[index + 1..]
    ensures t[at..at + n] == us[index] && t[at..][n..] == t[at + n..]
  {
    ConcatAppend(us[..index], [us[index]]);
    ConcatOne(us[index]);
    assert us[..index + 1] == us[..index] + [us[index]] && t[..at + n] == t[..at] + t[at..][..n];
  }

  /** Reading one more code point. */
  lemma PassedStep(t: seq<Byte>, index: nat, at: nat)
    requires Passed(t, index, at) && index < |Pieces(t)|
    ensures at < |t| && Starts(t[at..])
    ensures var n := SequenceLength(t[at]);
            at + n <= |t| && Passed(t, index + 1, at + n) && t[at..at + n] == Pieces(t)[index]
  {
    hide Sequence, SequenceLength, WellFormed, Pieces, Concat;
    var u, us := t[at..], Pieces(t);
    assert us[index] == us[index..][0];
    NotAllPassed(u);
    PiecesHead(u);
    MoveOne(t, us, index, at, SequenceLength(t[at]));
  }

  lemma NotAllPassed(u: seq<Byte>)
    requires WellFormed(u) && |Pieces(u)| > 0
    ensures u != []
  {
  }

  lemma ConcatOne(u: seq<Byte>)
    ensures Concat([u]) == u
  {
    assert Concat([u]) == u + Concat([]);
  }

  /** The character `unit` ends at `at`, and is the code point `c`. */
  predicate JustRead(chars: seq<Byte>, at: nat, c: CodePoint, unit: seq<Byte>) {
    CodePointSize(c) <= at <= |chars| && chars[at - CodePointSize(c)..at] == unit
  }

  method ReadOne(s: ObjString, at: nat, ghost index: nat) returns (next: nat, c: CodePoint)
    requires IsString(s) && Passed(TextOf(s.chars), index, at) && index < |Pieces(TextOf(s.chars))|
    ensures Passed(TextOf(s.chars), index + 1, next) && at < next <= |s.chars|
    ensures JustRead(s.chars, next, c, Pieces(TextOf(s.chars))[index])
  {
    hide Passed, Pieces, WellFormed, Sequence, SequenceLength, TextOf, Encode, IsString;
    ghost var t := TextOf(s.chars);
    PassedStep(t, index, at);
    InMemory(s, at);
    next, c := ReadCodePoint(s.Memory(), at);
    SameSlice(t, s.Memory(), at, next - at);
    SameSlice(t, s.chars, at, next - at);
  }

  /** Passes `count` more characters. */
  method Skip(s: ObjString, from: nat, count: nat, ghost index: nat) returns (at: nat)
    requires IsString(s) && s.Wide() && Passed(TextOf(s.chars), index, from) && index + count <= |Units(s.chars)|
    ensures Passed(TextOf(s.chars), index + count, at) && from <= at <= |s.chars|
  {
    hide Passed, Pieces, WellFormed, Units, IsString, TextOf, JustRead;
    at := from;
    UnitsLength(s);
    InText(TextOf(s.chars), index, from);
    for i := 0 to count
      invariant Passed(TextOf(s.chars), index + i, at) && from <= at <= |s.chars|
    {
      var next, c := ReadOne(s, at, index + i);
      at := next;
    }
  }

  lemma InText(t: seq<Byte>, index: nat, at: nat)
    requires Passed(t, index, at)
    ensures at <= |t|
  {
  }

  /** A sequence of the text can be read from memory. */
  lemma InMemory(s: ObjString, at: nat)
    requires at < |TextOf(s.chars)| && Starts(TextOf(s.chars)[at..])
    ensures s.Memory()[at] == TextOf(s.chars)[at] && Starts(s.Memory()[at..])
  {
    hide Sequence, SequenceLength, TextOf;
    var t, m := TextOf(s.chars), s.Memory();
    assert t == m[..|t|] && m[at] == t[at];
    SameSlice(t, m, at, SequenceLength(t[at]));
  }

  lemma SameSlice(t: seq<Byte>, m: seq<Byte>, at: nat, n: nat)
    requires |t| <= |m| && t == m[..|t|] && at + n <= |t|
    ensures m[at..][..n] == t[at..][..n] && m[at..at + n] == t[at..at + n]
  {
    assert forall j :: at <= j < at + n ==> m[j] == t[j];
  }

  /** The character at an index, counted from the end if it is negative. */
  method Subscript(s: ObjString, index: int) returns (r: Option<seq<Byte>>)
    requires IsString(s)
    ensures var us := Units(s.chars); var i := if index < 0 then |us| + index else index;
            r == if 0 <= i < |us| then Some(us[i]) else None
  {
    hide Passed, WellFormed, Sequence, SequenceLength, Units, IsString;
    UnitsLength(s);
    var length := s.Length();
    var i := if index < 0 then length + index else index;
    if !(0 <= i < length) { return None; }
    if s.Wide() {
      r := WideSubscript(s, i);
    } else {
      SinglesIndex(s.chars, i);
      r := Some([s.chars[i]]);
    }
  }

  /** The last code point that was read gives the number of bytes to go back. */
  method WideSubscript(s: ObjString, index: nat) returns (r: Option<seq<Byte>>)
    requires IsString(s) && s.Wide() && index < |Units(s.chars)|
    ensures r == Some(Units(s.chars)[index])
  {
    hide Passed, Pieces, WellFormed, Units, IsString, TextOf;
    var at, c := 0, 0;
    UnitsLength(s);
    PassedStart(TextOf(s.chars));
    for i := 0 to index + 1
      invariant Passed(TextOf(s.chars), i, at)
      invariant i > 0 ==> JustRead(s.chars, at, c, Pieces(TextOf(s.chars))[i - 1])
    {
      at, c := ReadOne(s, at, i);
    }
    r := Some(s.chars[at - CodePointSize(c)..at]);
  }

  /** Bounds are clipped; a negative end counts from the end of the string, a negative start is the beginning. */
  function Sliced(us: seq<seq<Byte>>, start: Option<int>, end: Option<int>): seq<Byte> {
    var a := if start.None? || start.value < 0 then 0 else start.value;
    var b := if end.None? || end.value > |us| then |us| else if end.value < 0 then |us| + end.value else end.value;
    if a > b then [] else Concat(us[a..b])
  }

  /** `s[:-k]` leaves out the last `k` characters, and `s[a:b]` for bounds within the string takes those from `a` to before
      `b`; a start behind the end gives nothing. */
  lemma SlicedIs(us: seq<seq<Byte>>, a: int, b: int, k: int)
    requires 0 <= a <= b <= |us| && 0 < k <= |us|
    ensures Sliced(us, None, Some(-k)) == Concat(us[..|us| - k]) && Sliced(us, Some(a), Some(b)) == Concat(us[a..b])
    ensures Sliced(us, Some(a), None) == Concat(us[a..]) && Sliced(us, Some(-k), None) == Concat(us)
    ensures Sliced(us, Some(b + 1), Some(a)) == [] && Sliced(us, None, Some(-(|us| + k))) == []
    ensures Sliced(us, None, Some(|us| + k)) == Concat(us)
  {
    hide Concat;
    assert us[0..|us| - k] == us[..|us| - k] && us[0..|us|] == us && us[a..|us|] == us[a..];
  }

  method Slice(s: ObjString, start: Option<int>, end: Option<int>) returns (r: seq<Byte>)
    requires IsString(s)
    ensures r == Sliced(Units(s.chars), start, end)
  {
    hide Passed, Pieces, WellFormed, Sequence, SequenceLength, Units, IsString, Concat;
    UnitsLength(s);
    var indexStart := 0;
    if start.Some? { indexStart := if start.value < 0 then 0 else start.value; }
    var length, indexEnd := s.Length(), 0;
    if end.None? {
      indexEnd := length;
    } else {
      indexEnd := end.value;
      if indexEnd > length { indexEnd := length; } else if indexEnd < 0 { indexEnd := length + indexEnd; }
    }
    if indexStart > indexEnd { return []; }
    if s.Wide() {
      r := WideSlice(s, indexStart, indexEnd);
    } else {
      SinglesSlice(s.chars, indexStart, indexEnd);
      r := s.chars[indexStart..indexEnd];
    }
  }

  method WideSlice(s: ObjString, start: nat, end: nat) returns (r: seq<Byte>)
    requires IsString(s) && s.Wide() && start <= end <= |Units(s.chars)|
    ensures r == Concat(Units(s.chars)[start..end])
  {
    hide Passed, Pieces, WellFormed, Sequence, SequenceLength, Units, IsString;
    UnitsLength(s);
    PassedStart(TextOf(s.chars));
    var first := Skip(s, 0, start, 0);
    var last := Skip(s, first, end - start, start);
    r := s.chars[first..last];
    Between(TextOf(s.chars), s.chars, start, first, end, last);
  }

  lemma Between(t: seq<Byte>, chars: seq<Byte>, start: nat, first: nat, end: nat, last: nat)
    requires Passed(t, start, first) && Passed(t, end, last) && start <= end && first <= last
    requires |t| <= |chars| && t == chars[..|t|]
    ensures chars[first..last] == Concat(Pieces(t)[start..end])
  {
    hide WellFormed;
    var us := Pieces(t);
    assert us[..end] == us[..start] + us[start..end];
    ConcatAppend(us[..start], us[start..end]);
    Middle(t, chars, first, last, Concat(us[start..end]));
  }

  lemma Middle(t: seq<Byte>, chars: seq<Byte>, first: nat, last: nat, middle: seq<Byte>)
    requires first <= last <= |t| <= |chars| && t == chars[..|t|] && t[..last] == t[..first] + middle
    ensures chars[first..last] == middle
  {
    assert t[..last][first..] == middle && t[first..last] == chars[first..last];
  }

  // ---- cutting a string in two ----

  lemma CutInTwo(us: seq<seq<Byte>>, k: nat)
    ensures Sliced(us, None, Some(k)) + Sliced(us, Some(k), None) == Concat(us)
  {
    if k <= |us| {
      assert us[0..k] + us[k..|us|] == us;
      ConcatAppend(us[0..k], us[k..|us|]);
    } else {
      assert us[0..|us|] == us;
    }
  }

  /** `s[:k] + s[k:]` is `s`, for one `k` or all of them, unless the string hides bytes behind a NUL. */
  lemma SlicesMakeTheString(chars: seq<Byte>, k: nat)
    ensures Sliced(Units(chars), None, Some(k)) + Sliced(Units(chars), Some(k), None) == chars <==> !HidesBytes(chars)
  {
    hide Sliced, Units, HidesBytes;
    CutInTwo(Units(chars), k);
    UnitsConcat(chars);
  }

  /** The shortest string that hides a byte: its slices are empty. */
  lemma HiddenExample()
    ensures HidesBytes([0]) && Sliced(Units([0]), None, Some(0)) + Sliced(Units([0]), Some(0), None) == []
  {
    assert TextOf([0]) == [];
    CutInTwo(Units([0]), 0);
  }
}
