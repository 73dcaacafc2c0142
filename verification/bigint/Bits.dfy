/** Powers of two, and what shifting by bits does to a run of words. */
module Bits {
  import opened Words

  const WORD_BITS: nat := 32

  function Pow2(n: nat): (p: nat)
    ensures p > 0
  {
    if n == 0 then 1 else 2 * Pow2(n - 1)
  }

  lemma {:induction false} Pow2Add(m: nat, n: nat)
    ensures Pow2(m + n) == Pow2(m) * Pow2(n)
    decreases m
  {
    if m > 0 {
      Pow2Add(m - 1, n);
      Double(Pow2(m - 1), Pow2(n), Pow2(m - 1 + n));
    }
  }

  lemma Double(x: int, y: int, z: int)
    requires z == x * y
    ensures 2 * z == (2 * x) * y
  {
  }

  lemma Pow2Word()
    ensures Pow2(32) == BASE && Pow2(16) == HALF
  {
    assert Pow2(8) == 256;
    Pow2Add(8, 8);
    Pow2Add(16, 16);
  }

  lemma {:induction false} PowIsPow2(n: nat)
    ensures Pow(n) == Pow2(32 * n)
    decreases n
  {
    if n > 0 {
      PowIsPow2(n - 1);
      Pow2Word();
      Pow2Add(32, 32 * (n - 1));
    }
  }

  lemma {:induction false} Pow2Monotone(m: nat, n: nat)
    requires m <= n
    ensures Pow2(m) <= Pow2(n)
    decreases n
  {
    if m < n { Pow2Monotone(m, n - 1); }
  }

  // ---- one word ----

  /** `w << b` and `w >> (32 - b)`: the two words that `w * 2^b` falls into. */
  function Low(w: Word, b: nat): Word
  {
    w * Pow2(b) % BASE
  }

  function High(w: Word, b: nat): (r: Word)
    requires b <= 32
  {
    HighFits(w, b);
    w / Pow2(32 - b)
  }

  lemma HighFits(w: Word, b: nat)
    requires b <= 32
    ensures 0 <= w / Pow2(32 - b) < BASE
  {
    QuotientFits(w, Pow2(32 - b));
  }

  lemma QuotientFits(w: Word, q: nat)
    requires q > 0
    ensures 0 <= w / q < BASE
  {
    MulMono(1, q, BASE);
    BelowQuotient(w, BASE, q);
  }

  lemma LowHigh(w: Word, b: nat)
    requires b <= 32
    ensures Low(w, b) + BASE * High(w, b) == w * Pow2(b)
    ensures Low(w, b) + (Pow2(b) - 1) < BASE && High(w, b) < Pow2(b)
  {
    Pow2Word();
    Pow2Add(b, 32 - b);
    ShiftedWord(w, Pow2(b), Pow2(32 - b));
  }

  lemma ShiftedWord(w: nat, p: nat, q: nat)
    requires p > 0 && q > 0 && p * q == BASE && w < BASE
    ensures w * p % BASE + BASE * (w / q) == w * p && w * p % BASE + (p - 1) < BASE && w / q < p
  {
    var hi, lo := w / q, w % q;
    ShiftedParts(w, hi, lo, p, q);
    BelowQuotient(w, p, q);
  }

  lemma ShiftedParts(w: nat, hi: nat, lo: nat, p: nat, q: nat)
    requires p > 0 && p * q == BASE && lo < q && w == hi * q + lo
    ensures w * p % BASE == lo * p && w * p == BASE * hi + lo * p && lo * p + (p - 1) < BASE
  {
    assert w * p == hi * (q * p) + lo * p;
    assert q * p == BASE;
    MulMono(lo, q - 1, p);
    assert (q - 1) * p == BASE - p;
    NonNeg(lo, p);
    Remainder(w * p, hi, lo * p);
  }

  lemma NonNeg(a: nat, b: nat)
    ensures a * b >= 0
  {
  }

  lemma Remainder(x: nat, q: nat, r: nat)
    requires x == BASE * q + r && r < BASE
    ensures x % BASE == r
  {
  }

  lemma BelowQuotient(w: nat, p: nat, q: nat)
    requires q > 0 && w < p * q
    ensures 0 <= w / q < p
  {
    var d, r := w / q, w % q;
    assert w == d * q + r;
    if d >= p { MulMono(p, d, q); }
    if d < 0 { MulMono(d, -1, q); }
  }

  /** Division with remainder is unique. */
  lemma Quotient(v: nat, p: nat, q: nat, r: nat)
    requires p > 0 && v == p * q + r && r < p
    ensures v / p == q && v % p == r
  {
    var d, e := v / p, v % p;
    assert v == d * p + e;
    TopDigit(e, d, r, q, p);
  }

  // ---- runs of words ----

  /** Word `j` of `s * 2^b`: `|` of bits that do not overlap is written as a sum. */
  function Shifted(s: seq<Word>, b: nat, j: nat): (w: Word)
    requires b <= 32 && j <= |s|
  {
    ShiftedFits(s, b, j);
    LowAt(s, b, j) + HighAt(s, b, j)
  }

  function LowAt(s: seq<Word>, b: nat, j: nat): Word
    requires j <= |s|
  {
    if j < |s| then Low(s[j], b) else 0
  }

  function HighAt(s: seq<Word>, b: nat, j: nat): Word
    requires b <= 32 && j <= |s|
  {
    if j > 0 then High(s[j - 1], b) else 0
  }

  lemma ShiftedFits(s: seq<Word>, b: nat, j: nat)
    requires b <= 32 && j <= |s|
    ensures LowAt(s, b, j) + HighAt(s, b, j) < BASE
  {
    Pow2Word();
    Pow2Monotone(b, 32);
    if j < |s| { LowHigh(s[j], b); }
    if j > 0 { LowHigh(s[j - 1], b); }
  }

  /** Shifting all words left by less than a word multiplies. */
  lemma {:induction false} ShiftedValue(s: seq<Word>, b: nat, r: seq<Word>, j: nat)
    requires b <= 32 && j <= |s| && |r| == |s| + 1 && forall k :: 0 <= k <= |s| ==> r[k] == Shifted(s, b, k)
    ensures Val(r[..j]) + HighAt(s, b, j) * Pow(j) == Val(s[..j]) * Pow2(b)
    decreases j
  {
    hide Low, High, Pow2;
    if j > 0 {
      ShiftedValue(s, b, r, j - 1);
      assert r[..j] == r[..j - 1] + [r[j - 1]] && s[..j] == s[..j - 1] + [s[j - 1]];
      ValPush(r[..j - 1], r[j - 1]);
      ValPush(s[..j - 1], s[j - 1]);
      LowHigh(s[j - 1], b);
      ShiftStep(Val(r[..j - 1]), HighAt(s, b, j - 1), Low(s[j - 1], b), HighAt(s, b, j), Pow(j - 1), Val(s[..j - 1]), s[j - 1],
                Pow2(b));
    }
  }

  lemma ShiftStep(v: int, h: int, l: int, h': int, p: int, w: int, x: int, t: int)
    requires v + h * p == w * t && l + BASE * h' == x * t
    ensures v + (l + h) * p + h' * (BASE * p) == (w + x * p) * t
  {
    assert (l + h) * p == l * p + h * p;
    assert (l + BASE * h') * p == l * p + h' * (BASE * p);
    assert (w + x * p) * t == w * t + (x * t) * p;
  }
}
