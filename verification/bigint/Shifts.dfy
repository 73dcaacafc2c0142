/** Shifting runs of words by any number of bits, also in place. */
module Shifts {
  import opened Words
  import opened Raw
  import opened Bits

  /** `d = s << shift`; the words of `A` may be those of `d`. */
  method ShiftLeft(d: array<Word>, A: array<Word>, n: nat, shift: nat, ghost s: seq<Word>) returns (r: nat)
    requires n <= A.Length && s == A[..n] && n + shift / WORD_BITS + (if shift % WORD_BITS != 0 then 1 else 0) <= d.Length
    modifies d
    ensures r <= d.Length && Normal(d[..r]) && Val(d[..r]) == Val(s) * Pow2(shift)
  {
    hide Val, Pow, Pow2;
    var wordShift, bitsShift := shift / WORD_BITS, shift % WORD_BITS;
    if bitsShift != 0 {
      ShiftBits(d, A, n, wordShift, bitsShift, s);
      ShiftedRun(d[..n + wordShift + 1], s, wordShift, bitsShift, shift);
      r := TruncateAll(d, n + wordShift + 1);
    } else {
      MoveUp(d, A, n, wordShift, s);
      MovedRun(d[..n + wordShift], s, wordShift, shift);
      r := TruncateAll(d, n + wordShift);
    }
  }

  method TruncateAll(d: array<Word>, n: nat) returns (r: nat)
    requires n <= d.Length
    ensures r <= n && Normal(d[..r]) && Val(d[..r]) == Val(d[..n])
  {
    r := Truncate(d, 0, n);
    assert d[0..r] == d[..r] && d[0..n] == d[..n];
  }

  /** From the top down, so that a word is read before it is overwritten. */
  method ShiftBits(d: array<Word>, A: array<Word>, n: nat, wordShift: nat, b: nat, ghost s: seq<Word>)
    requires n <= A.Length && s == A[..n] && n + wordShift + 1 <= d.Length && 0 < b < 32
    modifies d
    ensures forall k :: 0 <= k < wordShift ==> d[k] == 0
    ensures forall k :: wordShift <= k <= n + wordShift ==> d[k] == Shifted(s, b, k - wordShift)
  {
    hide Low, High;
    var hi: Word := 0;
    var i := n + wordShift;
    while i > wordShift
      invariant wordShift <= i <= n + wordShift && hi == (if i - wordShift < n then s[i - wordShift] else 0)
      invariant forall k :: 0 <= k < n && k <= i ==> A[k] == s[k]
      invariant forall k :: i < k <= n + wordShift ==> d[k] == Shifted(s, b, k - wordShift)
    {
      var lo := A[i - wordShift - 1];
      ShiftedFits(s, b, i - wordShift);
      NothingShifted(b);
      d[i] := Low(hi, b) + High(lo, b);
      hi := lo;
      i := i - 1;
    }
    NothingShifted(b);
    d[wordShift] := Low(hi, b);
    while i > 0
      invariant 0 <= i <= wordShift
      invariant forall k :: i <= k < wordShift ==> d[k] == 0
      invariant forall k :: wordShift <= k <= n + wordShift ==> d[k] == Shifted(s, b, k - wordShift)
    {
      i := i - 1;
      d[i] := 0;
    }
  }

  lemma NothingShifted(b: nat)
    ensures Low(0, b) == 0
  {
  }

  method MoveUp(d: array<Word>, A: array<Word>, n: nat, wordShift: nat, ghost s: seq<Word>)
    requires n <= A.Length && s == A[..n] && n + wordShift <= d.Length
    modifies d
    ensures forall k :: 0 <= k < wordShift ==> d[k] == 0
    ensures d[wordShift..wordShift + n] == s
  {
    var i := n + wordShift;
    while i > wordShift
      invariant wordShift <= i <= n + wordShift
      invariant forall k :: 0 <= k < n && k < i ==> A[k] == s[k]
      invariant forall k :: i <= k < n + wordShift ==> d[k] == s[k - wordShift]
    {
      i := i - 1;
      d[i] := A[i - wordShift];
    }
    while i > 0
      invariant 0 <= i <= wordShift
      invariant forall k :: i <= k < wordShift ==> d[k] == 0
      invariant forall k :: wordShift <= k < n + wordShift ==> d[k] == s[k - wordShift]
    {
      i := i - 1;
      d[i] := 0;
    }
  }

  lemma ShiftedRun(r: seq<Word>, s: seq<Word>, wordShift: nat, b: nat, shift: nat)
    requires |r| == |s| + wordShift + 1 && b < 32 && shift == 32 * wordShift + b
    requires forall k :: 0 <= k < wordShift ==> r[k] == 0
    requires forall k :: wordShift <= k <= |s| + wordShift ==> r[k] == Shifted(s, b, k - wordShift)
    ensures Val(r) == Val(s) * Pow2(shift)
  {
    hide Val, Pow, Pow2, Shifted;
    var t := r[wordShift..];
    ShiftedValue(s, b, t, |s|);
    assert t == t[..|s|] + [t[|s|]] && s[..|s|] == s && t[|s|] == HighAt(s, b, |s|) by { hide Low, High; TopWord(s, b); }
    ValPush(t[..|s|], t[|s|]);
    UpperWords(r, s, Pow2(b), wordShift, shift, b);
  }

  lemma TopWord(s: seq<Word>, b: nat)
    requires b <= 32
    ensures Shifted(s, b, |s|) == HighAt(s, b, |s|)
  {
  }

  lemma MovedRun(r: seq<Word>, s: seq<Word>, wordShift: nat, shift: nat)
    requires |r| == |s| + wordShift && shift == 32 * wordShift && r[wordShift..] == s
    requires forall k :: 0 <= k < wordShift ==> r[k] == 0
    ensures Val(r) == Val(s) * Pow2(shift)
  {
    assert Pow2(0) == 1;
    UpperWords(r, s, 1, wordShift, shift, 0);
  }

  /** Zero words below multiply by a power of the base. */
  lemma UpperWords(r: seq<Word>, s: seq<Word>, p: nat, wordShift: nat, shift: nat, b: nat)
    requires wordShift <= |r| && shift == 32 * wordShift + b && p == Pow2(b)
    requires forall k :: 0 <= k < wordShift ==> r[k] == 0
    requires Val(r[wordShift..]) == Val(s) * p
    ensures Val(r) == Val(s) * Pow2(shift)
  {
    hide Val, Pow, Pow2;
    assert r == r[..wordShift] + r[wordShift..];
    ValZeros(r[..wordShift]);
    ValAppend(r[..wordShift], r[wordShift..]);
    PowIsPow2(wordShift);
    Pow2Add(32 * wordShift, b);
    Regroup(Val(r), Val(r[wordShift..]), Val(s), p, Pow(wordShift), Pow2(shift));
  }

  lemma Regroup(v: int, upper: int, w: int, p: int, q: int, pq: int)
    requires v == q * upper && upper == w * p && pq == q * p
    ensures v == w * pq
  {
    assert q * (w * p) == w * (q * p);
  }

  // ---- to the right ----

  /** The words the code reads lie in the arrays. If bits are shifted it reads the lowest remaining word before it looks
      at how many remain. */
  predicate InArrays(shift: nat, n: nat, source: nat, target: nat) {
    && n <= source && n <= target + shift / WORD_BITS
    && (Regular(shift, n) || (shift / WORD_BITS < source && 0 < target))
  }

  /** Some word remains, or no bits are shifted. */
  predicate Regular(shift: nat, n: nat) {
    shift % WORD_BITS == 0 || shift / WORD_BITS < n
  }

  /** So many words are written. */
  function Written(shift: nat, n: nat): nat {
    if !Regular(shift, n) then 1 else if shift / WORD_BITS <= n then n - shift / WORD_BITS else 0
  }

  /** `d = s >> shift`, from the bottom up. If bits are shifted and no word remains, the result is what lies behind the
      number, shifted. */
  method ShiftRight(d: array<Word>, A: array<Word>, n: nat, shift: nat, ghost s: seq<Word>) returns (r: nat)
    requires InArrays(shift, n, A.Length, d.Length) && s == A[..n]
    modifies d
    ensures r <= d.Length && Normal(d[..r])
    ensures Regular(shift, n) ==> Val(d[..r]) == Val(s) / Pow2(shift)
    ensures !Regular(shift, n) ==> Val(d[..r]) == old(A[shift / WORD_BITS]) / Pow2(shift % WORD_BITS)
    ensures forall k :: Written(shift, n) <= k < d.Length ==> d[k] == old(d[k])
  {
    hide Val, Pow, Pow2;
    var wordShift, bitsShift := shift / WORD_BITS, shift % WORD_BITS;
    ghost var t := if wordShift <= n then s[wordShift..] else [];
    DropWords(s, t, wordShift);
    if bitsShift != 0 && wordShift < n {
      LowerBits(d, A, n, wordShift, bitsShift, s, t);
      DropBits(Val(s), Val(t), wordShift, bitsShift, shift);
      r := TruncateAll(d, n - wordShift);
    } else if bitsShift != 0 {
      r := LowerStray(d, A[wordShift], bitsShift);
    } else {
      var i := MoveDown(d, A, n, wordShift, s);
      DropNoBits(Val(s), Val(t), wordShift, shift);
      r := TruncateAll(d, i);
    }
  }

  /** The loop over the words does not run, and the one word that was read is written. */
  method LowerStray(d: array<Word>, lo: Word, b: nat) returns (r: nat)
    requires 0 < d.Length && 0 < b < 32
    modifies d
    ensures r <= d.Length && Normal(d[..r]) && Val(d[..r]) == lo / Pow2(b)
    ensures forall k :: 1 <= k < d.Length ==> d[k] == old(d[k])
  {
    hide Val, Pow, Pow2, Normal;
    RightFits(0, lo, b);
    d[0] := lo / Pow2(b);
    assert d[..1] == [d[0]];
    SingleWord(d[0]);
    r := TruncateAll(d, 1);
  }

  lemma SingleWord(w: Word)
    ensures Val([w]) == w
  {
    ValPush([], w);
    NoWords();
  }

  /** When no word remains, the result is right if and only if the word behind the number has none of its upper bits. */
  lemma StrayIsRight(s: seq<Word>, stray: Word, shift: nat)
    requires !Regular(shift, |s|)
    ensures stray / Pow2(shift % WORD_BITS) == Val(s) / Pow2(shift) <==> stray < Pow2(shift % WORD_BITS)
  {
    hide Val, Pow, Pow2;
    var wordShift, b := shift / WORD_BITS, shift % WORD_BITS;
    DropWords(s, if wordShift <= |s| then s[wordShift..] else [], wordShift);
    NoWords();
    DropBits(Val(s), 0, wordShift, b, shift);
    Quotient(0, Pow2(b), 0, 0);
    StrayQuotient(stray, Pow2(b));
  }

  /** The number 2 * 2^32 is 2 when shifted by 32, and 0 when shifted by 65. */
  lemma StrayExample()
    ensures !Regular(33, 1) && Pow2(33 % WORD_BITS) == 2
    ensures Val([0, 2]) == 2 * Pow2(32) && Val([0, 2]) / Pow2(32) == Val([2]) == 2 && Val([0, 2]) / Pow2(65) == 0
  {
    SingleWord(2);
    assert Pow2(1) == 2;
    hide Pow2;
    Pow2Word();
    ValPush([0], 2);
    SingleWord(0);
    assert [0] + [2] == [0, 2] && Pow(1) == BASE * Pow(0) && Pow(0) == 1;
    Pow2Add(32, 1);
    Pow2Add(32, 33);
    Quotient(Val([0, 2]), Pow2(65), 0, Val([0, 2]));
  }

  lemma StrayQuotient(w: nat, p: nat)
    requires p > 0
    ensures w / p == 0 <==> w < p
  {
    if w < p { Quotient(w, p, 0, w); }
  }

  method MoveDown(d: array<Word>, A: array<Word>, n: nat, wordShift: nat, ghost s: seq<Word>) returns (i: nat)
    requires n <= A.Length && s == A[..n] && n <= d.Length + wordShift
    modifies d
    ensures i <= d.Length && d[..i] == if wordShift <= n then s[wordShift..] else []
    ensures forall k :: i <= k < d.Length ==> d[k] == old(d[k])
  {
    i := 0;
    while i < n - wordShift
      invariant (wordShift <= n ==> i <= n - wordShift) && (n < wordShift ==> i == 0)
      invariant forall k :: 0 <= k < n && i + wordShift <= k ==> A[k] == s[k]
      invariant forall k :: 0 <= k < i ==> d[k] == s[k + wordShift]
      invariant forall k :: i <= k < d.Length ==> d[k] == old(d[k])
    {
      d[i] := A[i + wordShift];
      i := i + 1;
    }
  }

  /** Each word takes its upper bits from the next one. */
  method LowerBits(d: array<Word>, A: array<Word>, n: nat, wordShift: nat, b: nat, ghost s: seq<Word>, ghost t: seq<Word>)
    requires n <= A.Length && s == A[..n] && wordShift < n <= d.Length + wordShift && t == s[wordShift..] && 0 < b < 32
    modifies d
    ensures Val(d[..n - wordShift]) == Val(t) / Pow2(b)
    ensures forall k :: n - wordShift <= k < d.Length ==> d[k] == old(d[k])
  {
    hide Val, Pow, Pow2;
    var lo := A[wordShift];
    var i := 0;
    RightStart(t, d[..0], b);
    while i < n - wordShift - 1
      invariant 0 <= i < n - wordShift && lo == t[i]
      invariant forall k :: 0 <= k < n && i + wordShift <= k ==> A[k] == s[k]
      invariant forall k :: i <= k < d.Length ==> d[k] == old(d[k])
      invariant Pow2(b) * Val(d[..i]) + t[0] % Pow2(b) == Val(t[..i]) + t[i] % Pow2(b) * Pow(i)
    {
      var hi := A[i + wordShift + 1];
      assert hi == t[i + 1];
      RightFits(hi, lo, b);
      ghost var done := d[..i];
      d[i] := Low(hi, 32 - b) + lo / Pow2(b);
      assert d[..i + 1] == done + [d[i]];
      RightMore(t, done, d[i], i, b, t[i + 1] % Pow2(b));
      lo := hi;
      i := i + 1;
    }
    RightFits(0, lo, b);
    ghost var done := d[..i];
    d[i] := lo / Pow2(b);
    assert d[..i + 1] == done + [d[i]];
    NothingShifted(32 - b);
    RightMore(t, done, d[i], i, b, 0);
    assert t[..i + 1] == t;
    Quotient(Val(t), Pow2(b), Val(d[..i + 1]), t[0] % Pow2(b));
  }

  lemma RightFits(hi: Word, lo: Word, b: nat)
    requires 0 < b < 32
    ensures Low(hi, 32 - b) + lo / Pow2(b) < BASE && 0 <= lo / Pow2(b) < BASE
    ensures Pow2(b) * (Low(hi, 32 - b) + lo / Pow2(b)) == hi % Pow2(b) * BASE + lo - lo % Pow2(b)
  {
    Pow2Word();
    Pow2Add(b, 32 - b);
    RightWord(hi, lo, Pow2(b), Pow2(32 - b));
  }

  lemma RightWord(hi: nat, lo: nat, p: nat, q: nat)
    requires p > 0 && q > 0 && p * q == BASE && hi < BASE && lo < BASE
    ensures hi * q % BASE + lo / p < BASE && 0 <= lo / p < BASE
    ensures p * (hi * q % BASE + lo / p) == hi % p * BASE + lo - lo % p
  {
    var k, m, l := hi / p, hi % p, lo / p;
    LowPart(hi, k, m, p, q);
    assert q * p == BASE;
    BelowQuotient(lo, q, p);
    MulMono(1, p, q);
    assert p * (m * q + l) == m * (p * q) + p * l;
  }

  lemma LowPart(hi: nat, k: nat, m: nat, p: nat, q: nat)
    requires q > 0 && p * q == BASE && m < p && hi == p * k + m
    ensures hi * q % BASE == m * q && m * q + (q - 1) < BASE
  {
    assert hi * q == BASE * k + m * q by { assert (p * k) * q == (p * q) * k; }
    MulMono(m, p - 1, q);
    assert (p - 1) * q == BASE - q;
    NonNeg(m, q);
    Remainder(hi * q, k, m * q);
  }

  lemma RightStart(t: seq<Word>, none: seq<Word>, b: nat)
    requires t != [] && none == []
    ensures Pow2(b) * Val(none) + t[0] % Pow2(b) == Val(t[..0]) + t[0] % Pow2(b) * Pow(0)
  {
  }

  /** One more word: `m` is what the next word still owes. */
  lemma RightMore(t: seq<Word>, done: seq<Word>, w: Word, i: nat, b: nat, m: nat)
    requires i < |t| && |done| == i && 0 < b < 32
    requires Pow2(b) * Val(done) + t[0] % Pow2(b) == Val(t[..i]) + t[i] % Pow2(b) * Pow(i)
    requires Pow2(b) * w == m * BASE + t[i] - t[i] % Pow2(b)
    ensures Pow2(b) * Val(done + [w]) + t[0] % Pow2(b) == Val(t[..i + 1]) + m * Pow(i + 1)
  {
    ValPush(done, w);
    ValStep(t, i);
    RightStep(Pow2(b), Val(done), w, t[0] % Pow2(b), Val(t[..i]), t[i], t[i] % Pow2(b), m, Pow(i));
  }

  lemma RightStep(p: int, v: int, w: int, c: int, x: int, y: int, e: int, m: int, q: int)
    requires p * v + c == x + e * q && p * w == m * BASE + y - e
    ensures p * (v + w * q) + c == (x + y * q) + m * (BASE * q)
  {
    assert p * (v + w * q) == p * v + (p * w) * q;
    assert (m * BASE + y - e) * q == m * (BASE * q) + y * q - e * q;
  }

  lemma DropWords(s: seq<Word>, t: seq<Word>, wordShift: nat)
    requires t == if wordShift <= |s| then s[wordShift..] else []
    ensures Val(t) == Val(s) / Pow(wordShift)
  {
    hide Val, Pow;
    if wordShift <= |s| {
      assert s == s[..wordShift] + t;
      ValAppend(s[..wordShift], t);
      ValBound(s[..wordShift]);
      Quotient(Val(s), Pow(wordShift), Val(t), Val(s[..wordShift]));
    } else {
      ValBound(s);
      PowMonotone(|s|, wordShift);
      NoWords();
      Quotient(Val(s), Pow(wordShift), 0, Val(s));
    }
  }

  lemma NoWords()
    ensures Val([]) == 0
  {
  }

  lemma DropBits(v: nat, u: nat, wordShift: nat, b: nat, shift: nat)
    requires shift == 32 * wordShift + b && u == v / Pow(wordShift)
    ensures u / Pow2(b) == v / Pow2(shift)
  {
    hide Pow, Pow2;
    PowIsPow2(wordShift);
    Pow2Add(32 * wordShift, b);
    DivTwice(v, u, Pow(wordShift), Pow2(b), Pow2(shift));
  }

  lemma DivTwice(v: nat, u: nat, p: nat, q: nat, pq: nat)
    requires p > 0 && q > 0 && pq == p * q && pq > 0 && u == v / p
    ensures u / q == v / pq
  {
    var r, k, e := v % p, u / q, u % q;
    assert v == u * p + r && u == k * q + e;
    assert (k * q + e) * p == pq * k + e * p by { assert (k * q) * p == (p * q) * k; }
    MulMono(e + 1, q, p);
    NonNeg(e, p);
    Quotient(v, pq, k, e * p + r);
  }

  lemma DropNoBits(v: nat, u: nat, wordShift: nat, shift: nat)
    requires shift == 32 * wordShift && u == v / Pow(wordShift)
    ensures u == v / Pow2(shift)
  {
    PowIsPow2(wordShift);
  }
}
