/** Single bits of a run of words: how many there are, which is lowest, testing and setting one. */
module BitLevel {
  import opened Words
  import opened Bits
  import opened Shifts

  /** The bit `i` of a number. */
  function Bit(v: nat, i: nat): nat {
    v / Pow2(i) % 2
  }

  // ---- length ----

  /** `v` has exactly `n` significant bits. */
  predicate HasBits(v: nat, n: nat) {
    v < Pow2(n) && (n > 0 ==> Pow2(n - 1) <= v)
  }

  method WordBitLength(a: Word) returns (n: nat)
    ensures HasBits(a, n) && n <= 32
  {
    hide Pow2;
    Pow2Word();
    var i := 31;
    while i >= 0
      invariant -1 <= i <= 31 && a < Pow2(i + 1)
    {
      TopBit(a, i);
      if Bit(a, i) == 1 { return i + 1; }
      i := i - 1;
    }
    return 0;
  }

  lemma TopBit(a: nat, i: nat)
    requires a < Pow2(i + 1)
    ensures Bit(a, i) == if a < Pow2(i) then 0 else 1
  {
    if a < Pow2(i) {
      Quotient(a, Pow2(i), 0, a);
    } else {
      Quotient(a, Pow2(i), 1, a - Pow2(i));
    }
  }

  method BitLength(A: array<Word>, n: nat) returns (bits: nat)
    requires n <= A.Length && Normal(A[..n])
    ensures HasBits(Val(A[..n]), bits)
  {
    if n == 0 {
      assert Val(A[..n]) == 0;
      return 0;
    }
    var top := WordBitLength(A[n - 1]);
    bits := top + (n - 1) * WORD_BITS;
    LengthOf(A[..n], top);
  }

  lemma LengthOf(s: seq<Word>, top: nat)
    requires s != [] && s[|s| - 1] != 0 && HasBits(s[|s| - 1], top)
    ensures HasBits(Val(s), top + (|s| - 1) * 32)
  {
    var k := |s| - 1;
    assert top > 0;
    ValBound(s[..k]);
    PowIsPow2(k);
    Pow2Add(top, 32 * k);
    Pow2Add(top - 1, 32 * k);
    LengthArithmetic(s[k], Val(s[..k]), Pow(k), Pow2(top - 1), Pow2(top));
  }

  lemma LengthArithmetic(w: nat, v: nat, p: nat, lo: nat, hi: nat)
    requires v < p && lo <= w < hi
    ensures lo * p <= v + w * p < hi * p
  {
    MulMono(lo, w, p);
    MulMono(w + 1, hi, p);
  }

  /** The lengths bound a quotient. */
  lemma LengthsBoundQuotient(v: nat, m: nat, w: nat, n: nat)
    requires HasBits(v, m) && HasBits(w, n) && 0 < w <= v
    ensures n <= m && v < w * Pow2(m - n + 1)
  {
    if m < n {
      Pow2Monotone(m, n - 1);
      assert false;
    }
    Pow2Add(n - 1, m - n + 1);
    MulMono(Pow2(n - 1), w, Pow2(m - n + 1));
  }

  // ---- the lowest bit ----

  method WordTrailingZeros(a: Word) returns (n: nat)
    ensures a != 0 ==> n < 32 && a % Pow2(n) == 0 && Bit(a, n) == 1
    ensures a == 0 ==> n == 32
  {
    assert a % Pow2(0) == 0;
    for i := 0 to 32
      invariant a % Pow2(i) == 0
    {
      if Bit(a, i) == 1 { AtLeast(a, i); return i; }
      NextZero(a, i);
    }
    Pow2Word();
    return 32;
  }

  lemma AtLeast(a: nat, i: nat)
    requires Bit(a, i) == 1
    ensures a != 0
  {
    if a == 0 { Quotient(0, Pow2(i), 0, 0); }
  }

  lemma NextZero(a: nat, i: nat)
    requires a % Pow2(i) == 0 && Bit(a, i) != 1
    ensures a % Pow2(i + 1) == 0
  {
    var q := a / Pow2(i);
    assert a == q * Pow2(i);
    assert q == 2 * (q / 2);
    Quotient(a, Pow2(i + 1), q / 2, 0) by { assert Pow2(i + 1) * (q / 2) == Pow2(i) * (2 * (q / 2)); }
  }

  /** Around word `i`: what lies below and above it. */
  lemma AroundWord(s: seq<Word>, i: nat)
    requires i < |s|
    ensures Val(s) == Val(s[..i]) + Pow(i) * (s[i] + BASE * Val(s[i + 1..])) && Val(s[..i]) < Pow(i)
  {
    hide Val, Pow;
    assert s == s[..i] + s[i..] && s[i..] == [s[i]] + s[i + 1..];
    ValAppend(s[..i], s[i..]);
    ValAppend([s[i]], s[i + 1..]);
    OneWord(s[i]);
    ValBound(s[..i]);
  }

  lemma OneWord(w: Word)
    ensures Val([w]) == w && Pow(1) == BASE
  {
    assert Pow(0) == 1 && [w][..0] == [];
  }

  /** A bit of a run is a bit of one of its words. */
  lemma WordBit(s: seq<Word>, i: nat, b: nat)
    requires i < |s| && b < 32
    ensures Bit(Val(s), 32 * i + b) == Bit(s[i], b)
  {
    hide Val, Pow, Pow2;
    AroundWord(s, i);
    var rest := s[i] + BASE * Val(s[i + 1..]);
    Quotient(Val(s), Pow(i), rest, Val(s[..i]));
    PowIsPow2(i);
    Pow2Add(32 * i, b);
    DivTwice(Val(s), rest, Pow(i), Pow2(b), Pow2(32 * i + b));
    Pow2Word();
    Pow2Add(b, 32 - b);
    Pow2Add(1, 31 - b);
    assert Pow2(1) == 2 by { TwoIs(); }
    UpperParity(s[i], Val(s[i + 1..]), Pow2(b), Pow2(31 - b), rest);
  }

  lemma TwoIs()
    ensures Pow2(1) == 2 && Pow2(0) == 1
  {
    assert Pow2(0) == 1;
  }

  lemma UpperParity(w: nat, h: nat, p: nat, q: nat, rest: nat)
    requires p > 0 && p * (2 * q) == BASE && rest == w + BASE * h
    ensures rest / p % 2 == w / p % 2
  {
    var k, r := w / p, w % p;
    UpperSplit(w, h, p, q, rest, k, r);
    Quotient(rest, p, k + 2 * (q * h), r);
  }

  lemma UpperSplit(w: nat, h: nat, p: nat, q: nat, rest: nat, k: int, r: nat)
    requires p * (2 * q) == BASE && rest == w + BASE * h && w == p * k + r
    ensures rest == p * (k + 2 * (q * h)) + r
  {
    assert p * (k + 2 * (q * h)) == p * k + (p * (2 * q)) * h;
  }

  method TrailingZeros(A: array<Word>, n: nat) returns (bits: nat)
    requires n <= A.Length && Normal(A[..n])
    ensures n > 0 ==> bits / 32 < n && Val(A[..n]) % Pow2(bits) == 0 && Bit(Val(A[..n]), bits) == 1
    ensures n == 0 ==> bits == 0
  {
    hide Pow2, Val;
    for i := 0 to n
      invariant forall k :: 0 <= k < i ==> A[k] == 0
    {
      if A[i] != 0 {
        var low := WordTrailingZeros(A[i]);
        bits := low + i * WORD_BITS;
        assert A[..n][i] == A[i] && forall k :: 0 <= k < i ==> A[..n][k] == 0;
        WordBit(A[..n], i, low);
        LowZeros(A[..n], i, low);
        return;
      }
    }
    return n * WORD_BITS;
  }

  lemma LowZeros(s: seq<Word>, i: nat, b: nat)
    requires i < |s| && b < 32 && (forall k :: 0 <= k < i ==> s[k] == 0) && s[i] % Pow2(b) == 0
    ensures Val(s) % Pow2(32 * i + b) == 0
  {
    hide Val, Pow, Pow2;
    AroundWord(s, i);
    ValZeros(s[..i]);
    PowIsPow2(i);
    Pow2Add(32 * i, b);
    Pow2Word();
    Pow2Add(b, 32 - b);
    Multiple(s[i], Val(s[i + 1..]), Pow2(b), Pow2(32 - b), Pow(i), Val(s), Pow2(32 * i + b));
  }

  lemma Multiple(w: nat, h: nat, p: nat, q: nat, m: nat, v: nat, mp: nat)
    requires p > 0 && w % p == 0 && p * q == BASE && v == m * (w + BASE * h) && mp == m * p && mp > 0
    ensures v % mp == 0
  {
    var k := w / p;
    assert w == p * k;
    assert m * (p * k + (p * q) * h) == (m * p) * (k + q * h);
    Quotient(v, mp, k + q * h, 0);
  }

  // ---- testing and setting ----

  lemma ValUpdate(s: seq<Word>, i: nat, w: Word)
    requires i < |s|
    ensures Val(s[i := w]) == Val(s) + (w - s[i]) * Pow(i)
  {
    hide Val, Pow;
    var t := s[i := w];
    AroundWord(s, i);
    AroundWord(t, i);
    assert t[..i] == s[..i] && t[i + 1..] == s[i + 1..];
    var h := Val(s[i + 1..]);
    assert Pow(i) * (w + BASE * h) == Pow(i) * (s[i] + BASE * h) + (w - s[i]) * Pow(i);
  }

  /** A bit above the run is not set. */
  lemma BitAbove(s: seq<Word>, bit: nat)
    requires bit / 32 >= |s|
    ensures Bit(Val(s), bit) == 0
  {
    hide Val, Pow, Pow2;
    ValBound(s);
    PowIsPow2(|s|);
    Pow2Monotone(32 * |s|, bit);
    Quotient(Val(s), Pow2(bit), 0, Val(s));
  }

  method GetBit(A: array<Word>, n: nat, bit: nat) returns (r: nat)
    requires n <= A.Length
    ensures r == Bit(Val(A[..n]), bit)
  {
    var i := bit / WORD_BITS;
    if n <= i {
      BitAbove(A[..n], bit);
      return 0;
    }
    WordBit(A[..n], i, bit % WORD_BITS);
    r := A[i] / Pow2(bit % WORD_BITS) % 2;
  }

  /** Sets a bit of a run that is long enough; `|` of a bit that is not set is written as a sum. */
  method SetBit(d: array<Word>, n: nat, bit: nat)
    requires bit / 32 < n <= d.Length
    modifies d
    ensures forall k :: n <= k < d.Length ==> d[k] == old(d[k])
    ensures Val(d[..n]) == old(Val(d[..n])) + if Bit(old(Val(d[..n])), bit) == 1 then 0 else Pow2(bit)
    ensures d[bit / 32] != 0
    ensures forall k :: 0 <= k < n && k != bit / 32 ==> d[k] == old(d[k])
  {
    hide Val, Pow, Pow2;
    ghost var s := d[..n];
    var i, b := bit / WORD_BITS, bit % WORD_BITS;
    WordBit(s, i, b);
    SetFits(d[i], b);
    if d[i] / Pow2(b) % 2 == 1 { AtLeast(d[i], b); }
    else {
      d[i] := d[i] + Pow2(b);
      assert d[..n] == s[i := d[i]];
      ValUpdate(s, i, d[i]);
      PowIsPow2(i);
      Pow2Add(b, 32 * i);
      assert Pow2(b) * Pow(i) == Pow2(bit);
    }
  }

  lemma SetFits(w: Word, b: nat)
    requires b < 32
    ensures Bit(w, b) != 1 ==> w + Pow2(b) < BASE
  {
    hide Pow2;
    Pow2Word();
    Pow2Add(b, 32 - b);
    Pow2Add(1, 31 - b);
    TwoIs();
    if Bit(w, b) != 1 { EvenFits(w, Pow2(b), Pow2(31 - b), Pow2(32 - b)); }
  }

  lemma EvenFits(w: nat, p: nat, q: nat, q2: nat)
    requires p > 0 && w / p % 2 != 1 && q2 == 2 * q && p * q2 == BASE && w < BASE
    ensures w + p < BASE
  {
    var k, r := w / p, w % p;
    assert w == k * p + r && q2 * p == BASE;
    if k >= q2 { MulMono(q2, k, p); }
    MulMono(k + 2, q2, p);
  }
}
