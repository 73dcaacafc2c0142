/** UTF-8 as section 3 of RFC 3629 lays it out, with the wider range that the validator accepts: all of 21 bits,
    surrogates included, but no overlong forms. Masks and shifts are written as quotients and remainders. */
module Utf8 {
  type Byte = b: int | 0 <= b < 256
  type CodePoint = c: int | 0 <= c < 0x1_0000_0000

  /** `0b10xxxxxx` */
  predicate Continuation(b: Byte) {
    b / 64 == 2
  }

  /** How many bytes a sequence has, by its first byte: `0b11110xxx`, `0b1110xxxx`, `0b110xxxxx` or anything else. */
  function SequenceLength(b: Byte): (n: nat)
    ensures 1 <= n <= 4
  {
    if b / 8 == 30 then 4 else if b / 16 == 14 then 3 else if b / 32 == 6 then 2 else 1
  }

  /** How many bytes a code point needs. */
  function CodePointSize(c: CodePoint): (n: nat)
    ensures 1 <= n <= 4
  {
    if c < 0x80 then 1 else if c < 0x800 then 2 else if c < 0x1_0000 then 3 else 4
  }

  function Encode(c: CodePoint): (s: seq<Byte>)
    ensures |s| == CodePointSize(c)
  {
    match CodePointSize(c)
    case 1 => [c]
    case 2 => [0xc0 + c / 64, Low(c)]
    case 3 => [0xe0 + c / 0x1000, Low(c / 64), Low(c)]
    case _ => [0xf0 + c / 0x4_0000 % 8, Low(c / 0x1000), Low(c / 64), Low(c)]
  }

  /** A continuation byte with the lowest six bits. */
  function Low(c: nat): Byte {
    0x80 + c % 64
  }

  function Decode(s: seq<Byte>): CodePoint
    requires s != [] && |s| == SequenceLength(s[0])
  {
    match |s|
    case 1 => s[0]
    case 2 => Join(0, 0, Bits(s[0], 32), Bits(s[1], 64))
    case 3 => Join(0, Bits(s[0], 16), Bits(s[1], 64), Bits(s[2], 64))
    case _ => Join(Bits(s[0], 8), Bits(s[1], 64), Bits(s[2], 64), Bits(s[3], 64))
  }

  function Bits(b: nat, n: nat): (r: nat)
    requires n > 0
    ensures r < n
  {
    b % n
  }

  function Join(a: nat, b: nat, c: nat, d: nat): CodePoint
    requires a < 64 && b < 64 && c < 64 && d < 64
  {
    a * 0x4_0000 + b * 0x1000 + c * 64 + d
  }

  /** A first byte of the right kind, then continuation bytes, and no shorter form. */
  predicate Sequence(s: seq<Byte>) {
    && s != [] && |s| == SequenceLength(s[0]) && (|s| == 1 ==> s[0] < 0x80)
    && (forall i :: 1 <= i < |s| ==> Continuation(s[i])) && !Overlong(s)
  }

  /** All bits that a shorter form has no room for are zero. */
  predicate Overlong(s: seq<Byte>) {
    || (|s| == 2 && s[0] / 2 % 16 == 0)
    || (|s| == 3 && s[0] % 16 == 0 && s[1] / 32 % 2 == 0)
    || (|s| == 4 && s[0] % 8 == 0 && s[1] / 16 % 4 == 0)
  }

  predicate InRange(c: CodePoint) {
    c < 0x20_0000
  }

  /** The six-bit groups of a joined number. */
  lemma Split(a: nat, b: nat, c: nat, d: nat)
    requires a < 64 && b < 64 && c < 64 && d < 64
    ensures var v := Join(a, b, c, d);
            && v / 0x4_0000 == a && v / 0x1000 == a * 64 + b && v / 64 == a * 0x1000 + b * 64 + c
            && v / 0x1000 % 64 == b && v / 64 % 64 == c && v % 64 == d
  {
    var v := Join(a, b, c, d);
    assert v / 64 == a * 0x1000 + b * 64 + c;
    assert v / 0x1000 == a * 64 + b;
  }

  lemma Rejoin(v: CodePoint)
    requires InRange(v)
    ensures Join(v / 0x4_0000, v / 0x1000 % 64, v / 64 % 64, v % 64) == v
  {
    assert v / 0x1000 == v / 0x4_0000 * 64 + v / 0x1000 % 64;
    assert v / 64 == v / 0x1000 * 64 + v / 64 % 64;
  }

  lemma DecodeEncode(c: CodePoint)
    requires InRange(c)
    ensures Sequence(Encode(c)) && Decode(Encode(c)) == c
  {
    hide Encode, Decode, Sequence, Join;
    Rejoin(c);
    if c < 0x80 { One(c); } else if c < 0x800 { Two(c); } else if c < 0x1_0000 { Three(c); } else { Four(c); }
  }

  lemma One(c: CodePoint)
    requires c < 0x80
    ensures Sequence(Encode(c)) && Decode(Encode(c)) == c
  {
  }

  lemma Two(c: CodePoint)
    requires 0x80 <= c < 0x800
    ensures Sequence(Encode(c)) && Decode(Encode(c)) == Join(c / 0x4_0000, c / 0x1000 % 64, c / 64 % 64, c % 64)
  {
    hide Join;
    var s := Encode(c);
    assert SequenceLength(s[0]) == 2 && Bits(s[0], 32) == c / 64 && Bits(s[1], 64) == c % 64;
  }

  lemma Three(c: CodePoint)
    requires 0x800 <= c < 0x1_0000
    ensures Sequence(Encode(c)) && Decode(Encode(c)) == Join(c / 0x4_0000, c / 0x1000 % 64, c / 64 % 64, c % 64)
  {
    hide Join;
    var s := Encode(c);
    assert SequenceLength(s[0]) == 3 && Bits(s[0], 16) == c / 0x1000;
    assert Bits(s[1], 64) == c / 64 % 64 && Bits(s[2], 64) == c % 64;
  }

  lemma Four(c: CodePoint)
    requires 0x1_0000 <= c < 0x20_0000
    ensures Sequence(Encode(c)) && Decode(Encode(c)) == Join(c / 0x4_0000, c / 0x1000 % 64, c / 64 % 64, c % 64)
  {
    hide Join;
    var s := Encode(c);
    assert SequenceLength(s[0]) == 4 && Bits(s[0], 8) == c / 0x4_0000;
    assert Bits(s[1], 64) == c / 0x1000 % 64 && Bits(s[2], 64) == c / 64 % 64 && Bits(s[3], 64) == c % 64;
  }

  lemma EncodeDecode(s: seq<Byte>)
    requires Sequence(s)
    ensures InRange(Decode(s)) && Encode(Decode(s)) == s
  {
    hide Encode, Decode;
    match |s|
    case 1 => OneBack(s);
    case 2 => TwoBack(s);
    case 3 => ThreeBack(s);
    case _ => FourBack(s);
  }

  lemma OneBack(s: seq<Byte>)
    requires |s| == 1 && Sequence(s)
    ensures InRange(Decode(s)) && Encode(Decode(s)) == s
  {
  }

  lemma TwoBack(s: seq<Byte>)
    requires |s| == 2 && Sequence(s)
    ensures InRange(Decode(s)) && Encode(Decode(s)) == s
  {
    hide Join;
    Split(0, 0, s[0] % 32, s[1] % 64);
    JoinSize(0, 0, s[0] % 32, s[1] % 64);
    assert Decode(s) == Join(0, 0, s[0] % 32, s[1] % 64);
    assert s[0] == 0xc0 + s[0] % 32 && s[1] == 0x80 + s[1] % 64;
  }

  lemma ThreeBack(s: seq<Byte>)
    requires |s| == 3 && Sequence(s)
    ensures InRange(Decode(s)) && Encode(Decode(s)) == s
  {
    hide Join;
    Split(0, s[0] % 16, s[1] % 64, s[2] % 64);
    JoinSize(0, s[0] % 16, s[1] % 64, s[2] % 64);
    assert Decode(s) == Join(0, s[0] % 16, s[1] % 64, s[2] % 64);
    assert s[0] == 0xe0 + s[0] % 16 && s[1] == 0x80 + s[1] % 64 && s[2] == 0x80 + s[2] % 64;
  }

  lemma FourBack(s: seq<Byte>)
    requires |s| == 4 && Sequence(s)
    ensures InRange(Decode(s)) && Encode(Decode(s)) == s
  {
    hide Join;
    Split(s[0] % 8, s[1] % 64, s[2] % 64, s[3] % 64);
    JoinSize(s[0] % 8, s[1] % 64, s[2] % 64, s[3] % 64);
    assert Decode(s) == Join(s[0] % 8, s[1] % 64, s[2] % 64, s[3] % 64);
    assert s[0] == 0xf0 + s[0] % 8 && s[1] == 0x80 + s[1] % 64 && s[2] == 0x80 + s[2] % 64 && s[3] == 0x80 + s[3] % 64;
  }

  /** How large a joined number is, by its leading groups. */
  lemma JoinSize(a: nat, b: nat, c: nat, d: nat)
    requires a < 64 && b < 64 && c < 64 && d < 64
    ensures var v := Join(a, b, c, d);
            && (a < 8 ==> v < 0x20_0000) && (a == 0 && b < 16 ==> v < 0x1_0000) && (a == b == 0 && c < 32 ==> v < 0x800)
            && (a > 0 || b >= 16 ==> v >= 0x1_0000) && (b > 0 || c >= 32 ==> v >= 0x800) && (c >= 2 ==> v >= 0x80)
  {
  }

  // ---- texts ----

  /** The text starts with a sequence of this many bytes. */
  predicate Starts(t: seq<Byte>) {
    t != [] && SequenceLength(t[0]) <= |t| && Sequence(t[..SequenceLength(t[0])])
  }

  predicate WellFormed(t: seq<Byte>) {
    t == [] || (Starts(t) && WellFormed(t[SequenceLength(t[0])..]))
  }

  function DecodeAll(t: seq<Byte>): seq<CodePoint>
    requires WellFormed(t)
  {
    if t == [] then []
    else
      var n := SequenceLength(t[0]);
      [Decode(t[..n])] + DecodeAll(t[n..])
  }

  function EncodeAll(cs: seq<CodePoint>): seq<Byte> {
    if cs == [] then [] else Encode(cs[0]) + EncodeAll(cs[1..])
  }

  predicate AllInRange(cs: seq<CodePoint>) {
    forall i :: 0 <= i < |cs| ==> InRange(cs[i])
  }

  /** Appending each decoded code point reproduces the bytes. */
  lemma {:induction false} EncodeDecodeAll(t: seq<Byte>)
    requires WellFormed(t)
    ensures EncodeAll(DecodeAll(t)) == t && AllInRange(DecodeAll(t))
  {
    hide Encode, Decode, Sequence, SequenceLength;
    if t != [] {
      var n := SequenceLength(t[0]);
      EncodeDecode(t[..n]);
      EncodeDecodeAll(t[n..]);
      assert t == t[..n] + t[n..] && DecodeAll(t)[1..] == DecodeAll(t[n..]);
    }
  }

  lemma {:induction false} DecodeEncodeAll(cs: seq<CodePoint>)
    requires AllInRange(cs)
    ensures WellFormed(EncodeAll(cs)) && DecodeAll(EncodeAll(cs)) == cs
  {
    if cs != [] {
      hide Encode, Sequence, Decode;
      DecodeEncode(cs[0]);
      DecodeEncodeAll(cs[1..]);
      var e, t := Encode(cs[0]), EncodeAll(cs);
      SequenceHead(e);
      assert t[0] == e[0] && t[..|e|] == e && t[|e|..] == EncodeAll(cs[1..]);
    }
  }

  lemma SequenceHead(s: seq<Byte>)
    requires Sequence(s)
    ensures s != [] && |s| == SequenceLength(s[0])
  {
  }

  /** Exactly the texts that are encodings are well-formed. */
  lemma WellFormedIffEncoded(t: seq<Byte>)
    ensures WellFormed(t) <==> exists cs: seq<CodePoint> :: AllInRange(cs) && EncodeAll(cs) == t
  {
    if WellFormed(t) { EncodeDecodeAll(t); }
    forall cs: seq<CodePoint> | AllInRange(cs) && EncodeAll(cs) == t
      ensures WellFormed(t)
    {
      DecodeEncodeAll(cs);
    }
  }

  /** A sequence at the end is one more code point. */
  lemma {:induction false} WellFormedPush(t: seq<Byte>, s: seq<Byte>)
    requires WellFormed(t) && Sequence(s)
    ensures WellFormed(t + s) && DecodeAll(t + s) == DecodeAll(t) + [Decode(s)]
  {
    hide Sequence, Decode, SequenceLength;
    SequenceHead(s);
    if t == [] {
      assert t + s == s && s[..|s|] == s && s[|s|..] == [];
    } else {
      var n := SequenceLength(t[0]);
      WellFormedPush(t[n..], s);
      Prefixed(t, s, n);
    }
  }

  lemma Prefixed(t: seq<Byte>, s: seq<Byte>, n: nat)
    requires n <= |t|
    ensures (t + s)[..n] == t[..n] && (t + s)[n..] == t[n..] + s
  {
  }

  // ---- strings in memory, up to the terminating NUL ----

  /** The bytes before the first NUL. */
  function Text(memory: seq<Byte>): (t: seq<Byte>)
    requires 0 in memory
    ensures |t| < |memory| && t == memory[..|t|] && memory[|t|] == 0 && 0 !in t
  {
    if memory[0] == 0 then []
    else
      assert memory == [memory[0]] + memory[1..];
      [memory[0]] + Text(memory[1..])
  }

  function Cut(t: seq<Byte>, n: nat): seq<Byte> {
    if |t| <= n then t else t[..n]
  }

  /** What is in memory from `i` on, up to the NUL, has `k` bytes. */
  predicate Reaches(memory: seq<Byte>, i: nat, k: nat) {
    i + k < |memory| && memory[i + k] == 0 && forall j :: i <= j < i + k ==> memory[j] != 0
  }

  /** One turn of the validator. Nothing behind the terminating NUL is read. */
  predicate Accepts(memory: seq<Byte>, i: nat, remaining: nat, ghost k: nat)
    requires Reaches(memory, i, k) && k > 0 && remaining > 0
  {
    var b := memory[i];
    if b / 8 == 30 then
      && remaining >= 4 && Continuation(memory[i + 1]) && Continuation(memory[i + 2]) && Continuation(memory[i + 3])
      && !(remaining != 4 && Continuation(memory[i + 4])) && !(b % 8 == 0 && memory[i + 1] / 16 % 4 == 0)
    else if b / 16 == 14 then
      && remaining >= 3 && Continuation(memory[i + 1]) && Continuation(memory[i + 2])
      && !(remaining != 3 && Continuation(memory[i + 3])) && !(b % 16 == 0 && memory[i + 1] / 32 % 2 == 0)
    else if b / 32 == 6 then
      && remaining >= 2 && Continuation(memory[i + 1])
      && !(remaining != 2 && Continuation(memory[i + 2])) && !(b / 2 % 16 == 0)
    else
      b / 128 == 0
  }

  /** What is left is well-formed only if this turn accepts, and then so is what is left after it. */
  lemma AcceptsIff(memory: seq<Byte>, i: nat, remaining: nat, k: nat, t: seq<Byte>)
    requires Reaches(memory, i, k) && k > 0 && remaining > 0 && t == Cut(memory[i..i + k], remaining)
    ensures Accepts(memory, i, remaining, k) ==> Starts(t) && (WellFormed(t) <==> WellFormed(t[SequenceLength(t[0])..]))
    ensures !Accepts(memory, i, remaining, k) ==> !WellFormed(t)
  {
    hide WellFormed;
    AcceptsStarts(memory, i, remaining, k, t);
    if Starts(t) {
      var n := SequenceLength(t[0]);
      Unfold(t);
      if n < |t| {
        if WellFormed(t[n..]) { NotContinuation(t[n..]); }
      }
    } else {
      Unfold(t);
    }
  }

  lemma Unfold(t: seq<Byte>)
    ensures t != [] ==> (WellFormed(t) <==> Starts(t) && WellFormed(t[SequenceLength(t[0])..]))
  {
  }

  lemma NotContinuation(t: seq<Byte>)
    requires t != [] && WellFormed(t)
    ensures !Continuation(t[0])
  {
  }

  /** A turn accepts if a sequence starts here and no continuation byte follows it. */
  lemma AcceptsStarts(memory: seq<Byte>, i: nat, remaining: nat, k: nat, t: seq<Byte>)
    requires Reaches(memory, i, k) && k > 0 && remaining > 0 && t == Cut(memory[i..i + k], remaining)
    ensures Accepts(memory, i, remaining, k) <==>
      Starts(t) && (SequenceLength(t[0]) > 1 && SequenceLength(t[0]) < |t| ==> !Continuation(t[SequenceLength(t[0])]))
  {
    assert forall j :: 0 <= j < |t| ==> t[j] == memory[i + j];
    var n := SequenceLength(t[0]);
    if k < n {
      assert memory[i + k] == 0;
      assert k == 1 || k == 2 || k == 3;
    } else if remaining >= n {
      SequenceBytes(t[..n], memory[i], memory[i + 1], if n > 2 then memory[i + 2] else 0, if n > 3 then memory[i + 3] else 0);
      assert n < k && n < remaining ==> t[n] == memory[i + n];
      assert n == k ==> memory[i + n] == 0;
    }
  }

  lemma SequenceBytes(s: seq<Byte>, a: Byte, b: Byte, c: Byte, d: Byte)
    requires 1 <= |s| <= 4 && s[0] == a && |s| == SequenceLength(a)
    requires (|s| > 1 ==> s[1] == b) && (|s| > 2 ==> s[2] == c) && (|s| > 3 ==> s[3] == d)
    ensures Sequence(s) <==>
      if |s| == 1 then a < 0x80
      else if |s| == 2 then Continuation(b) && a / 2 % 16 != 0
      else if |s| == 3 then Continuation(b) && Continuation(c) && !(a % 16 == 0 && b / 32 % 2 == 0)
      else Continuation(b) && Continuation(c) && Continuation(d) && !(a % 8 == 0 && b / 16 % 4 == 0)
  {
  }

  /** Null (`ok`) or the place of the first turn that does not accept. */
  method NValid(memory: seq<Byte>, n: nat) returns (ok: bool, at: nat)
    requires 0 in memory
    ensures var t := Cut(Text(memory), n);
            && (ok <==> WellFormed(t)) && at <= |t| && WellFormed(t[..at]) && (ok ==> at == |t|)
  {
    hide WellFormed, Sequence, Accepts, Cut, SequenceLength;
    ghost var text := Text(memory);
    ghost var t := Cut(text, n);
    at := 0;
    NothingYet(t);
    CutLength(text, n);
    while at < n && memory[at] != 0
      invariant at <= |t| && WellFormed(t[..at]) && (WellFormed(t) <==> WellFormed(t[at..]))
    {
      Turn(memory, n, at, text, t);
      if !Accepts(memory, at, n - at, |text| - at) { return false, at; }
      at := at + SequenceLength(memory[at]);
    }
    assert t[..at] == t;
    return true, at;
  }

  lemma CutLength(t: seq<Byte>, n: nat)
    ensures |Cut(t, n)| == (if |t| <= n then |t| else n) && forall j :: 0 <= j < |Cut(t, n)| ==> Cut(t, n)[j] == t[j]
  {
  }

  lemma CutLater(memory: seq<Byte>, text: seq<Byte>, at: nat, n: nat)
    requires |text| <= |memory| && text == memory[..|text|] && at <= n && at <= |text|
    ensures at <= |Cut(text, n)| && Cut(text, n)[at..] == Cut(memory[at..|text|], n - at)
  {
  }

  lemma Turn(memory: seq<Byte>, n: nat, at: nat, text: seq<Byte>, t: seq<Byte>)
    requires 0 in memory && text == Text(memory) && t == Cut(text, n) && at < |t| && WellFormed(t[..at])
    ensures Reaches(memory, at, |text| - at)
    ensures var size := SequenceLength(memory[at]);
            if Accepts(memory, at, n - at, |text| - at) then
              at + size <= |t| && WellFormed(t[..at + size]) && (WellFormed(t[at..]) <==> WellFormed(t[at + size..]))
            else !WellFormed(t[at..])
  {
    hide WellFormed, Sequence, Accepts, Text, SequenceLength, Cut, Continuation;
    CutLength(text, n);
    var k, u := |text| - at, t[at..];
    CutLater(memory, text, at, n);
    assert u[0] == memory[at];
    AcceptsIff(memory, at, n - at, k, u);
    if Accepts(memory, at, n - at, k) {
      var size := SequenceLength(memory[at]);
      WellFormedPush(t[..at], u[..size]);
      Slices(t, at, size);
    }
  }

  lemma Slices(t: seq<Byte>, at: nat, size: nat)
    requires at + size <= |t|
    ensures t[..at] + t[at..][..size] == t[..at + size] && t[at..][size..] == t[at + size..]
  {
  }

  lemma NothingYet(t: seq<Byte>)
    ensures WellFormed(t[..0]) && t[0..] == t
  {
  }

  /** How many code points end within the first `n` bytes. */
  function Within(t: seq<Byte>, n: nat): nat
    requires WellFormed(t)
  {
    if t == [] || SequenceLength(t[0]) > n then 0
    else 1 + Within(t[SequenceLength(t[0])..], n - SequenceLength(t[0]))
  }

  lemma {:induction false} WithinAll(t: seq<Byte>, n: nat)
    requires WellFormed(t) && |t| <= n
    ensures Within(t, n) == |DecodeAll(t)|
  {
    hide Sequence, Decode;
    if t != [] { WithinAll(t[SequenceLength(t[0])..], n - SequenceLength(t[0])); }
  }

  /** Lead bytes are trusted: from `at` on, going from lead byte to lead byte stays in memory until NUL or `n`. */
  predicate Walkable(memory: seq<Byte>, at: nat, n: nat)
    decreases n - at
  {
    at < n ==> at < |memory| && (memory[at] != 0 ==> Walkable(memory, at + SequenceLength(memory[at]), n))
  }

  /** How many of those steps end within `n` bytes. */
  function Strides(memory: seq<Byte>, at: nat, n: nat): nat
    requires Walkable(memory, at, n)
    decreases n - at
  {
    if at >= n || memory[at] == 0 || at + SequenceLength(memory[at]) > n then 0
    else 1 + Strides(memory, at + SequenceLength(memory[at]), n)
  }

  /** In well-formed text every step is a code point, and none leads behind the NUL. */
  lemma {:induction false} WalkIsWithin(memory: seq<Byte>, at: nat, n: nat)
    requires 0 in memory && at <= |Text(memory)| && WellFormed(Text(memory)[at..])
    ensures Walkable(memory, at, n)
    ensures at <= n ==> Strides(memory, at, n) == Within(Text(memory)[at..], n - at)
    decreases n - at
  {
    hide WellFormed, Within, Sequence;
    var t := Text(memory)[at..];
    if at <= n {
      WithinStep(t, n - at);
      if at < n && t != [] {
        var size := SequenceLength(t[0]);
        assert t[0] == memory[at] && t[size..] == Text(memory)[at + size..];
        WalkIsWithin(memory, at + size, n);
      }
    }
  }

  /** A code point that is cut off by `n` is not counted. */
  method NLen(memory: seq<Byte>, n: nat) returns (length: nat)
    requires Walkable(memory, 0, n)
    ensures length == Strides(memory, 0, n)
    ensures 0 in memory && WellFormed(Text(memory)) ==> length == Within(Text(memory), n)
  {
    hide WellFormed, Within, Sequence, SequenceLength;
    var at := 0;
    length := 0;
    while at < n && memory[at] != 0
      invariant Walkable(memory, at, n)
      invariant if at <= n then length + Strides(memory, at, n) == Strides(memory, 0, n)
                else length == Strides(memory, 0, n) + 1
      decreases n - at
    {
      at := at + SequenceLength(memory[at]);
      length := length + 1;
    }
    if at > n { length := length - 1; }
    if 0 in memory && WellFormed(Text(memory)) {
      assert Text(memory)[0..] == Text(memory);
      WalkIsWithin(memory, 0, n);
    }
  }

  lemma WithinStep(t: seq<Byte>, n: nat)
    requires WellFormed(t)
    ensures t == [] || n == 0 ==> Within(t, n) == 0
    ensures t != [] ==> SequenceLength(t[0]) <= |t| && WellFormed(t[SequenceLength(t[0])..])
    ensures t != [] && SequenceLength(t[0]) > n ==> Within(t, n) == 0
    ensures t != [] && SequenceLength(t[0]) <= n ==>
      Within(t, n) == 1 + Within(t[SequenceLength(t[0])..], n - SequenceLength(t[0]))
  {
    hide Sequence;
  }

  /** The code point at `at`, and the place behind it. */
  method ReadCodePoint(memory: seq<Byte>, at: nat) returns (next: nat, c: CodePoint)
    requires at < |memory| && Starts(memory[at..])
    ensures at < next <= |memory| && next == at + SequenceLength(memory[at]) && Sequence(memory[at..next])
    ensures c == Decode(memory[at..next]) && Encode(c) == memory[at..next]
  {
    var b := memory[at];
    next := at + SequenceLength(b);
    ghost var s := memory[at..next];
    assert memory[at..][..SequenceLength(b)] == s;
    EncodeDecode(s);
    if b / 8 == 30 {
      c := Join(Bits(b, 8), Bits(memory[at + 1], 64), Bits(memory[at + 2], 64), Bits(memory[at + 3], 64));
    } else if b / 16 == 14 {
      c := Join(0, Bits(b, 16), Bits(memory[at + 1], 64), Bits(memory[at + 2], 64));
    } else if b / 32 == 6 {
      c := Join(0, 0, Bits(b, 32), Bits(memory[at + 1], 64));
    } else {
      c := b;
    }
  }

  /** Appends a code point, if the `n` bytes at `at` have room for it. */
  method CatCodePoint(buffer: array<Byte>, at: nat, c: CodePoint, n: nat) returns (ok: bool, next: nat)
    requires at + n <= buffer.Length
    modifies buffer
    ensures ok <==> CodePointSize(c) <= n
    ensures ok ==> next == at + CodePointSize(c)
    ensures buffer[..] == if ok then old(buffer[..at]) + Encode(c) + old(buffer[at + CodePointSize(c)..]) else old(buffer[..])
  {
    if c < 0x80 {
      if n < 1 { return false, at; }
      buffer[at] := c;
      return true, at + 1;
    } else if c < 0x800 {
      if n < 2 { return false, at; }
      buffer[at], buffer[at + 1] := 0xc0 + c / 64, Low(c);
      return true, at + 2;
    } else if c < 0x1_0000 {
      if n < 3 { return false, at; }
      buffer[at], buffer[at + 1], buffer[at + 2] := 0xe0 + c / 0x1000, Low(c / 64), Low(c);
      return true, at + 3;
    } else {
      if n < 4 { return false, at; }
      buffer[at], buffer[at + 1] := 0xf0 + c / 0x4_0000 % 8, Low(c / 0x1000);
      buffer[at + 2], buffer[at + 3] := Low(c / 64), Low(c);
      return true, at + 4;
    }
  }

  // ---- order ----

  /** At the first place where they differ, `s` has the smaller byte. */
  predicate Before(s: seq<Byte>, t: seq<Byte>) {
    exists i :: 0 <= i < |s| && i < |t| && s[i] < t[i] && forall j :: 0 <= j < i ==> s[j] == t[j]
  }

  /** Encodings are in the order of their code points. */
  lemma OrderKept(c: CodePoint, d: CodePoint)
    requires c < d && InRange(d)
    ensures Before(Encode(c), Encode(d))
  {
    hide Encode, Before;
    if CodePointSize(c) < CodePointSize(d) { LongerLater(c, d); } else {
      SizesGrow(c, d);
      match CodePointSize(c)
      case 1 => OneOrdered(c, d);
      case 2 => TwoOrdered(c, d);
      case 3 => ThreeOrdered(c, d);
      case _ => FourOrdered(c, d);
    }
  }

  lemma SizesGrow(c: CodePoint, d: CodePoint)
    requires c < d
    ensures CodePointSize(c) <= CodePointSize(d)
  {
  }

  lemma LongerLater(c: CodePoint, d: CodePoint)
    requires CodePointSize(c) < CodePointSize(d) && InRange(d)
    ensures Before(Encode(c), Encode(d))
  {
    assert Encode(c)[0] < Encode(d)[0];
  }

  lemma OneOrdered(c: CodePoint, d: CodePoint)
    requires c < d && CodePointSize(c) == CodePointSize(d) == 1
    ensures Before(Encode(c), Encode(d))
  {
    assert Encode(c)[0] < Encode(d)[0];
  }

  lemma TwoOrdered(c: CodePoint, d: CodePoint)
    requires c < d && CodePointSize(c) == CodePointSize(d) == 2
    ensures Before(Encode(c), Encode(d))
  {
    var s, t := Encode(c), Encode(d);
    if c / 64 < d / 64 { assert s[0] < t[0]; } else { assert s[0] == t[0] && s[1] < t[1]; }
  }

  lemma ThreeOrdered(c: CodePoint, d: CodePoint)
    requires c < d && CodePointSize(c) == CodePointSize(d) == 3
    ensures Before(Encode(c), Encode(d))
  {
    var s, t := Encode(c), Encode(d);
    Sextets(c, d);
    if c / 0x1000 < d / 0x1000 { assert s[0] < t[0]; }
    else if c / 64 < d / 64 { assert s[0] == t[0] && s[1] < t[1]; }
    else { assert s[0] == t[0] && s[1] == t[1] && s[2] < t[2]; }
  }

  lemma FourOrdered(c: CodePoint, d: CodePoint)
    requires c < d && CodePointSize(c) == CodePointSize(d) == 4 && InRange(d)
    ensures Before(Encode(c), Encode(d))
  {
    var s, t := Encode(c), Encode(d);
    Sextets(c, d);
    if c / 0x4_0000 < d / 0x4_0000 { assert s[0] < t[0]; }
    else if c / 0x1000 < d / 0x1000 { assert s[0] == t[0] && s[1] < t[1]; }
    else if c / 64 < d / 64 { assert s[0] == t[0] && s[1] == t[1] && s[2] < t[2]; }
    else { assert s[0] == t[0] && s[1] == t[1] && s[2] == t[2] && s[3] < t[3]; }
  }

  /** The smaller number has the smaller leading part, or the same one and then the smaller next six bits. */
  lemma Sextets(c: nat, d: nat)
    requires c < d
    ensures c / 0x4_0000 <= d / 0x4_0000 && c / 0x1000 <= d / 0x1000 && c / 64 <= d / 64
    ensures c / 0x4_0000 == d / 0x4_0000 && c / 0x1000 < d / 0x1000 ==> c / 0x1000 % 64 < d / 0x1000 % 64
    ensures c / 0x1000 == d / 0x1000 && c / 64 < d / 64 ==> c / 64 % 64 < d / 64 % 64
    ensures c / 64 == d / 64 ==> c % 64 < d % 64
    ensures c / 0x1000 == d / 0x1000 ==> c / 0x4_0000 == d / 0x4_0000
    ensures c / 64 == d / 64 ==> c / 0x1000 == d / 0x1000
  {
    assert c / 0x1000 == c / 64 / 64 && d / 0x1000 == d / 64 / 64;
    assert c / 0x4_0000 == c / 0x1000 / 64 && d / 0x4_0000 == d / 0x1000 / 64;
  }
}
