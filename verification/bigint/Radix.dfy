/** Reading and writing numbers in any base from 2 to 36. */
module Radix {
  import opened Words
  import opened Raw
  import opened Bits
  import opened Karatsuba
  import opened BigInt
  import Shifts
  import Division
  import PowMod

  const NO_DIGIT: Word := 0xFFFF_FFFF

  function Character(digit: nat): char
    requires digit < 36
  {
    "0123456789abcdefghijklmnopqrstuvwxyz"[digit]
  }

  function WordFromChar(c: char): Word {
    if '0' <= c <= '9' then c as int - '0' as int
    else if 'a' <= c <= 'z' then c as int - 'a' as int + 10
    else if 'A' <= c <= 'Z' then c as int - 'A' as int + 10
    else NO_DIGIT
  }

  predicate IsDigit(c: char) {
    WordFromChar(c) != NO_DIGIT
  }

  // ---- what a text stands for ----

  /** The characters before the first NUL. */
  function Text(src: string): string {
    if src == [] || src[0] == '\0' then [] else [src[0]] + Text(src[1..])
  }

  /** Horner's rule over the digits; everything else is skipped. A digit may be larger than the base. */
  function Parsed(src: string, base: nat): nat {
    if src == [] then 0
    else
      var n := |src| - 1;
      if IsDigit(src[n]) then Times(Parsed(src[..n], base), base) + WordFromChar(src[n]) else Parsed(src[..n], base)
  }

  function CountDigits(src: string): nat {
    if src == [] then 0 else CountDigits(src[..|src| - 1]) + if IsDigit(src[|src| - 1]) then 1 else 0
  }

  predicate Negative(src: string) {
    src != [] && src[0] == '-'
  }

  // ---- what a number looks like ----

  function Numeral(v: nat, base: nat): string
    requires 2 <= base <= 36
  {
    if v == 0 then []
    else
      Shrinks(v, base);
      Numeral(v / base, base) + [Character(v % base)]
  }

  lemma Shrinks(v: nat, base: nat)
    requires v > 0 && base >= 2
    ensures 0 <= v / base < v
  {
    var q := v / base;
    assert v == q * base + v % base;
    if q >= v { MulMono(2, base, q); }
    if q < 0 { MulMono(q, -1, base); }
  }

  function Written(neg: bool, v: nat, base: nat, zeroTerminate: bool): string
    requires 2 <= base <= 36
  {
    (if neg then "-" else "") + (if v == 0 then "0" else Numeral(v, base)) + (if zeroTerminate then "\0" else "")
  }

  // ---- the round trip ----

  lemma TableDigit(d: nat)
    requires d < 36
    ensures WordFromChar(Character(d)) == d && Character(d) != '\0' && Character(d) != '-'
  {
  }

  lemma ZeroDigit()
    ensures WordFromChar('0') == 0 && Character(0) == '0'
  {
  }

  lemma {:induction false} NumeralParses(v: nat, base: nat)
    requires 2 <= base <= 36
    ensures Parsed(Numeral(v, base), base) == v && '\0' !in Numeral(v, base) && '-' !in Numeral(v, base)
  {
    hide WordFromChar, Character, Times;
    if v > 0 {
      Shrinks(v, base);
      NumeralParses(v / base, base);
      TableDigit(v % base);
      ParsedPush(Numeral(v / base, base), Character(v % base), base);
      Recombine(v, base);
    } else {
      assert Numeral(v, base) == [];
    }
  }

  lemma Recombine(v: nat, base: nat)
    requires base > 0
    ensures Times(v / base, base) + v % base == v
  {
  }

  lemma ParsedPush(s: string, c: char, base: nat)
    requires IsDigit(c)
    ensures Parsed(s + [c], base) == Times(Parsed(s, base), base) + WordFromChar(c)
  {
    assert (s + [c])[..|s|] == s;
  }

  lemma {:induction false} NoNul(s: string)
    requires '\0' !in s
    ensures Text(s) == s && Text(s + "\0") == s
  {
    if s != [] {
      NoNul(s[1..]);
      assert (s + "\0")[1..] == s[1..] + "\0" && s == [s[0]] + s[1..];
    }
  }

  lemma {:induction false} SkipSign(s: string, base: nat)
    ensures Parsed("-" + s, base) == Parsed(s, base)
  {
    if s == [] {
      assert ("-" + s)[..0] == [] && "-" + s == "-";
    } else {
      var n := |s| - 1;
      SkipSign(s[..n], base);
      assert ("-" + s)[..n + 1] == "-" + s[..n];
    }
  }

  /** Reading what was written gives back the sign and the magnitude, also of a negative zero, with or without the
      terminating NUL. */
  lemma RoundTrip(neg: bool, v: nat, base: nat, zeroTerminate: bool)
    requires 2 <= base <= 36
    ensures var text := Text(Written(neg, v, base, zeroTerminate)); Parsed(text, base) == v && Negative(text) == neg
  {
    hide WordFromChar, Character, Numeral;
    NumeralParses(v, base);
    ZeroDigit();
    var digits := if v == 0 then "0" else Numeral(v, base);
    if v == 0 {
      assert "0"[..0] == [];
      assert Parsed("0", base) == 0;
    }
    var s := (if neg then "-" else "") + digits;
    assert Written(neg, v, base, zeroTerminate) == s + if zeroTerminate then "\0" else "";
    NoNul(s);
    if neg { SkipSign(digits, base); } else { assert s == digits; }
    if !zeroTerminate { assert s + "" == s; }
  }

  // ---- reading ----

  lemma TextPrefix(src: string, i: nat)
    requires i <= |src| && '\0' !in src[..i]
    ensures i <= |Text(src)| && Text(src)[..i] == src[..i]
    ensures i == |src| || src[i] == '\0' ==> Text(src) == src[..i]
    ensures i < |src| && src[i] != '\0' ==> i < |Text(src)| && Text(src)[i] == src[i]
    decreases i
  {
    if i > 0 {
      assert src[..i][0] == src[0] && src[..i][1..] == src[1..][..i - 1];
      TextPrefix(src[1..], i - 1);
      assert src[..i] == [src[0]] + src[1..][..i - 1];
    }
  }

  lemma {:induction false} PowerMonotone(b: nat, m: nat, n: nat)
    requires m <= n && b > 0
    ensures 0 < PowMod.Power(b, m) <= PowMod.Power(b, n)
    decreases n
  {
    if m < n {
      PowerMonotone(b, m, n - 1);
      MulMono(1, b, PowMod.Power(b, n - 1));
    } else if m > 0 {
      PowerMonotone(b, m - 1, n - 1);
      MulMono(1, b, PowMod.Power(b, n - 1));
    }
  }

  /** Digits above the base cost less than one more word. */
  lemma {:induction false} ParsedBound(s: string, base: nat)
    requires base >= 2
    ensures Parsed(s, base) + 35 <= 35 * PowMod.Power(base, CountDigits(s))
  {
    if s != [] {
      var n := |s| - 1;
      ParsedBound(s[..n], base);
      if IsDigit(s[n]) { DigitBound(Parsed(s[..n], base), WordFromChar(s[n]), base, PowMod.Power(base, CountDigits(s[..n]))); }
    }
  }

  lemma DigitBound(v: nat, d: nat, base: nat, p: nat)
    requires v + 35 <= 35 * p && d <= 35 && base >= 2
    ensures Times(v, base) + d + 35 <= 35 * Times(base, p)
  {
    MulMono(v + 35, 35 * p, base);
    assert (v + 35) * base == v * base + 35 * base && (35 * p) * base == 35 * (base * p);
  }

  lemma {:induction false} FewerDigits(s: string, i: nat)
    requires i <= |s|
    ensures CountDigits(s[..i]) <= CountDigits(s)
    decreases |s|
  {
    if i < |s| {
      FewerDigits(s[..|s| - 1], i);
      assert s[..|s| - 1][..i] == s[..i];
    } else {
      assert s[..i] == s;
    }
  }

  /** `bound` words are enough for the whole text, and so for every part of it. */
  predicate Roomy(text: string, base: nat, bound: nat) {
    bound > 0 && PowMod.Power(base, CountDigits(text)) <= Pow(bound - 1)
  }

  lemma PartFits(text: string, base: nat, bound: nat, i: nat)
    requires base >= 2 && Roomy(text, base, bound) && i <= |text|
    ensures Parsed(text[..i], base) < Pow(bound)
  {
    ParsedBound(text[..i], base);
    FewerDigits(text, i);
    PowerMonotone(base, CountDigits(text[..i]), CountDigits(text));
  }

  /** One more character. */
  lemma ParseStep(text: string, base: nat, i: nat)
    requires i < |text| && base > 0
    ensures IsDigit(text[i]) ==> Parsed(text[..i + 1], base) == Parsed(text[..i], base) * base + WordFromChar(text[i])
    ensures !IsDigit(text[i]) ==> Parsed(text[..i + 1], base) == Parsed(text[..i], base)
  {
    assert text[..i + 1][..i] == text[..i];
  }

  /** Digits one by one, into words that have been cleared. */
  method RawFromStrBase(d: array<Word>, src: string, base: Word, ghost bound: nat) returns (n: nat)
    requires 2 <= base && bound <= d.Length && Clear(d, 0, 0, bound) && Roomy(Text(src), base, bound)
    modifies d
    ensures n <= bound && Normal(d[..n]) && Val(d[..n]) == Parsed(Text(src), base)
  {
    hide Val, Parsed, Text, Roomy, Pow, WordFromChar;
    ghost var text := Text(src);
    n := 0;
    var i := 0;
    NothingRead(d[0..0], text[..0], base);
    TextPrefix(src, 0);
    while i < |src| && src[i] != '\0'
      invariant i <= |src| && '\0' !in src[..i] && i <= |text|
      invariant n <= bound && Clear(d, 0, n, bound) && Normal(d[0..n]) && Val(d[0..n]) == Parsed(text[..i], base)
    {
      TextPrefix(src, i);
      ParseStep(text, base, i);
      PartFits(text, base, bound, i + 1);
      var digit := WordFromChar(src[i]);
      if digit != NO_DIGIT {
        n := MulWord(d, 0, n, base, bound);
        n := AddWord(d, 0, n, digit, bound);
      }
      i := i + 1;
    }
    TextPrefix(src, i);
    assert text[..i] == text;
    n := Shifts.TruncateAll(d, n);
    assert d[0..n] == d[..n];
  }

  lemma NothingRead(none: seq<Word>, s: string, base: nat)
    requires none == [] && s == []
    ensures Val(none) == Parsed(s, base)
  {
  }

  /** `bound` stands for the number of words computed from logarithms. */
  method FromStrBase(dst: BigInt, src: string, base: Word, bound: nat)
    requires dst.size <= dst.words.Length && 2 <= base && Roomy(Text(src), base, bound)
    modifies dst, dst.words
    ensures dst.Valid() && dst.Magnitude() == Parsed(Text(src), base) && dst.neg == Negative(Text(src))
    ensures dst.words == old(dst.words) || fresh(dst.words)
  {
    hide Val, Parsed, Text, Roomy, Pow;
    dst.Reserve(bound);
    Zero(dst.words, 0, 0, bound);
    dst.size := RawFromStrBase(dst.words, src, base, bound);
    dst.neg := src != [] && src[0] == '-';
    FirstCharacter(src);
  }

  lemma FirstCharacter(src: string)
    ensures Negative(Text(src)) == Negative(src)
  {
  }

  // ---- writing ----

  /** The last `i` characters of `full`, back to front. */
  predicate Backwards(d: seq<char>, i: nat, full: string) {
    i <= |d| && i <= |full| && forall k :: 0 <= k < i ==> d[k] == full[|full| - 1 - k]
  }

  /** One more character, if there is room for it. */
  method Emit(dst: array<char>, i: nat, n: nat, c: char, ghost full: string, ghost length: nat) returns (j: nat)
    requires n <= dst.Length && length < |full| && i == Min(n, length) && Backwards(dst[..], i, full)
    requires c == full[|full| - 1 - length]
    modifies dst
    ensures j == Min(n, length + 1) && Backwards(dst[..], j, full)
    ensures forall k :: n <= k < dst.Length ==> dst[k] == old(dst[k])
  {
    j := i;
    if i < n {
      dst[i] := c;
      j := i + 1;
    }
  }

  method Reverse(d: array<char>, n: nat)
    requires n <= d.Length
    modifies d
    ensures forall k :: 0 <= k < n ==> d[k] == old(d[n - 1 - k])
    ensures forall k :: n <= k < d.Length ==> d[k] == old(d[k])
  {
    for i := 0 to n / 2
      invariant forall k :: 0 <= k < i ==> d[k] == old(d[n - 1 - k]) && d[n - 1 - k] == old(d[k])
      invariant forall k :: i <= k < n - i || n <= k < d.Length ==> d[k] == old(d[k])
    {
      d[i], d[n - 1 - i] := d[n - 1 - i], d[i];
    }
  }

  /** What is still to be written is in front of the last `length` characters. */
  predicate Pending(full: string, neg: bool, v: nat, base: nat, length: nat)
    requires 2 <= base <= 36
  {
    var front := (if neg then "-" else "") + Numeral(v, base);
    |front| + length == |full| && full[..|front|] == front
  }

  lemma NextDigit(full: string, neg: bool, v: nat, base: nat, length: nat)
    requires 2 <= base <= 36 && v > 0 && Pending(full, neg, v, base, length)
    ensures length < |full| && full[|full| - 1 - length] == Character(v % base)
    ensures Shrinking(v, base) && Pending(full, neg, v / base, base, length + 1)
  {
    Shrinks(v, base);
    var front := (if neg then "-" else "") + Numeral(v, base);
    var front' := (if neg then "-" else "") + Numeral(v / base, base);
    assert front == front' + [Character(v % base)];
    assert full[..|front|][|front'|] == Character(v % base);
    assert full[..|front|][..|front'|] == full[..|front'|];
  }

  lemma PendingStart(neg: bool, v: nat, base: nat, zeroTerminate: bool)
    requires 2 <= base <= 36
    ensures var full := Written(neg, v, base, zeroTerminate); var length := if zeroTerminate then 1 else 0;
            && (zeroTerminate ==> full[|full| - 1] == '\0')
            && (v > 0 ==> Pending(full, neg, v, base, length))
            && (v == 0 ==> length < |full| && full[|full| - 1 - length] == '0' && Pending(full, neg, 0, base, length + 1))
  {
    var full := Written(neg, v, base, zeroTerminate);
    assert full[..if neg then 1 else 0] == if neg then "-" else "";
  }

  lemma PendingSign(full: string, neg: bool, base: nat, length: nat)
    requires 2 <= base <= 36 && Pending(full, neg, 0, base, length)
    ensures if neg then length + 1 == |full| && full[|full| - 1 - length] == '-' else length == |full|
  {
    if neg { assert full[..1][0] == '-'; }
  }

  lemma Reversed(d: seq<char>, d': seq<char>, i: nat, full: string)
    requires Backwards(d, i, full) && |d'| == |d| && forall k :: 0 <= k < i ==> d'[k] == d[i - 1 - k]
    ensures d'[..i] == full[|full| - i..]
  {
  }

  predicate Shrinking(v: nat, base: nat)
    requires base > 0
  {
    0 <= v / base < v
  }

  /** Digits from the lowest one, by repeated division of a copy. */
  method WriteDigits(dst: array<char>, n: nat, start: nat, a: BigInt, base: Word, ghost full: string, ghost length0: nat)
    returns (i: nat, ghost length: nat)
    requires n <= dst.Length && a.Valid() && 2 <= base <= 36 && start == Min(n, length0)
    requires Backwards(dst[..], start, full) && Pending(full, a.neg, a.Magnitude(), base, length0)
    modifies dst
    ensures Pending(full, a.neg, 0, base, length) && i == Min(n, length) && Backwards(dst[..], i, full)
    ensures forall k :: n <= k < dst.Length ==> dst[k] == old(dst[k])
  {
    hide Val, Backwards, Pending;
    i, length := start, length0;
    var tmp := new BigInt();
    tmp.CopyFrom(a);
    Division.ZeroSize(tmp);
    while tmp.size > 0
      invariant tmp.Valid() && fresh(tmp.words) && (tmp.size == 0 <==> tmp.Magnitude() == 0)
      invariant i == Min(n, length) && Backwards(dst[..], i, full) && Pending(full, a.neg, tmp.Magnitude(), base, length)
      invariant forall k :: n <= k < dst.Length ==> dst[k] == old(dst[k])
      decreases tmp.Magnitude()
    {
      ghost var v := tmp.Magnitude();
      var remainder := tmp.DivModHalfWord(base);
      Quotient(v, base, tmp.Magnitude(), remainder);
      NextDigit(full, a.neg, v, base, length);
      i := Emit(dst, i, n, Character(remainder), full, length);
      length := length + 1;
      Division.ZeroSize(tmp);
    }
  }

  /** The NUL, the digits and the sign, back to front, as far as there is room. */
  method WriteBackwards(dst: array<char>, n: nat, a: BigInt, base: Word, zeroTerminate: bool, ghost full: string)
    returns (i: nat)
    requires n <= dst.Length && a.Valid() && 2 <= base <= 36 && full == Written(a.neg, a.Magnitude(), base, zeroTerminate)
    modifies dst
    ensures i == Min(n, |full|) && Backwards(dst[..], i, full)
    ensures forall k :: n <= k < dst.Length ==> dst[k] == old(dst[k])
  {
    hide Val, Backwards, Pending, Written;
    ghost var length := 0;
    i := 0;
    NothingWritten(dst[..], full);
    PendingStart(a.neg, a.Magnitude(), base, zeroTerminate);
    Division.ZeroSize(a);
    if zeroTerminate {
      i := Emit(dst, i, n, '\0', full, length);
      length := length + 1;
    }
    if a.size == 0 {
      i := Emit(dst, i, n, '0', full, length);
      length := length + 1;
    } else {
      i, length := WriteDigits(dst, n, i, a, base, full, length);
    }
    PendingSign(full, a.neg, base, length);
    if a.neg { i := Emit(dst, i, n, '-', full, length); }
  }

  lemma NothingWritten(d: seq<char>, full: string)
    ensures Backwards(d, 0, full)
  {
  }

  /** Written back to front and then reversed: a buffer that is too small gets the last characters. */
  method WriteBase(dst: array<char>, n: nat, a: BigInt, base: Word, zeroTerminate: bool) returns (i: nat)
    requires n <= dst.Length && a.Valid() && 2 <= base <= 36
    modifies dst
    ensures var full := Written(a.neg, a.Magnitude(), base, zeroTerminate); i == Min(n, |full|) && dst[..i] == full[|full| - i..]
    ensures var full := Written(a.neg, a.Magnitude(), base, zeroTerminate); dst[..i] == full <==> |full| <= n
    ensures forall k :: n <= k < dst.Length ==> dst[k] == old(dst[k])
  {
    hide Val, Backwards, Written;
    ghost var full := Written(a.neg, a.Magnitude(), base, zeroTerminate);
    i := WriteBackwards(dst, n, a, base, zeroTerminate, full);
    ghost var before := dst[..];
    Reverse(dst, i);
    Reversed(before, dst[..], i, full);
  }

  /** A buffer of two characters keeps the digits of -12 and loses the sign. */
  method ShortBuffer() returns (dst: array<char>)
    ensures Written(true, 12, 10, false) == "-12" && dst[..] == "12"
  {
    hide Val, Normal, Written;
    Twelve();
    var a := new BigInt();
    a.FromWord(12);
    a.neg := true;
    dst := new char[2];
    var i := WriteBase(dst, 2, a, 10, false);
    assert dst[..2] == dst[..];
  }

  lemma Twelve()
    ensures Written(true, 12, 10, false) == "-12" && "-12"[1..] == "12"
  {
    assert Numeral(1, 10) == "1" && Numeral(12, 10) == "12";
  }

  // ---- capital letters ----

  function Capital(c: char): char {
    if 'a' <= c <= 'z' then (c as int - 32) as char else c
  }

  function Capitals(s: string): (r: string)
    ensures |r| == |s|
  {
    seq(|s|, i requires 0 <= i < |s| => Capital(s[i]))
  }

  /** A number can be written in capitals. */
  lemma {:induction false} CapitalsParse(s: string, base: nat)
    ensures Parsed(Capitals(s), base) == Parsed(s, base) && Negative(Capitals(s)) == Negative(s)
    decreases |s|
  {
    hide WordFromChar, Capital, Times;
    if s != [] {
      var n := |s| - 1;
      CapitalsParse(s[..n], base);
      assert Capitals(s)[..n] == Capitals(s[..n]);
      SameDigit(s[n]);
      SameDigit(s[0]);
    }
  }

  lemma SameDigit(c: char)
    ensures WordFromChar(Capital(c)) == WordFromChar(c) && (Capital(c) == '-' <==> c == '-')
  {
  }

  /** FF and ff in base 16. */
  lemma Hexadecimal()
    ensures Parsed("FF", 16) == Parsed("ff", 16) == 255
  {
    hide Times;
    assert WordFromChar('F') == 15 && WordFromChar('f') == 15;
    assert "FF"[..1] == "F" && "ff"[..1] == "f" && "F"[..0] == "" && "f"[..0] == "";
    assert Parsed("", 16) == 0 && Times(0, 16) == 0 && Times(15, 16) == 240 by { SmallProducts(); }
    assert Parsed("F", 16) == 15 && Parsed("f", 16) == 15;
  }

  lemma SmallProducts()
    ensures Times(0, 16) == 0 && Times(15, 16) == 240
  {
  }
}
