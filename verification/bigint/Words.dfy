/** Machine words, and the integer that a little-endian run of words stands for. */
module Words {
  const HALF: nat := 0x1_0000
  const BASE: nat := 0x1_0000_0000

  type Word = w: int | 0 <= w < 0x1_0000_0000

  function Pow(n: nat): (p: nat)
    ensures p > 0
  {
    if n == 0 then 1 else BASE * Pow(n - 1)
  }

  function Val(s: seq<Word>): nat {
    if s == [] then 0 else Val(s[..|s| - 1]) + s[|s| - 1] * Pow(|s| - 1)
  }

  /** No leading zero word. */
  predicate Normal(s: seq<Word>) {
    s == [] || s[|s| - 1] != 0
  }

  // ---- single words ----

  /** `a + b` and the carry, detected by the wrap-around. */
  function AddGetCarry(a: Word, b: Word): (r: (Word, Word))
    ensures r.0 + BASE * r.1 == a + b && r.1 <= 1
  {
    var sum := (a + b) % BASE;
    (sum, if sum < b then 1 else 0)
  }

  /** `a - b` and the borrow, detected by the wrap-around. */
  function SubGetCarry(a: Word, b: Word): (r: (Word, Word))
    ensures r.0 - BASE * r.1 == a - b && r.1 <= 1
  {
    var dif := (a - b) % BASE;
    (dif, if dif > a then 1 else 0)
  }

  function MulLo(a: Word, b: Word): Word {
    a * b % BASE
  }

  /** The high word of a product, from four products of half words. No intermediate overflows. */
  function MulHi(a: Word, b: Word): (r: Word)
    ensures BASE * r + MulLo(a, b) == a * b
  {
    MulHiIsHigh(a, b);
    var c0: Word := a % HALF * (b % HALF);
    var c1: Word := a % HALF * (b / HALF);
    var c2: Word := a / HALF * (b % HALF);
    var c3: Word := a / HALF * (b / HALF);
    var c4: Word := c0 / HALF + c1 % HALF + c2 % HALF;
    c4 / HALF + c1 / HALF + c2 / HALF + c3
  }

  lemma MulMono(x: int, y: int, p: int)
    requires x <= y && p >= 0
    ensures x * p <= y * p
  {
    assert (y - x) * p >= 0;
  }

  lemma HalfProduct(x: nat, y: nat)
    requires x < HALF && y < HALF
    ensures 0 <= x * y < BASE
  {
    MulMono(x, HALF - 1, y);
    MulMono(0, x, y);
  }

  lemma MulHiIsHigh(a: Word, b: Word)
    ensures var c0 := a % HALF * (b % HALF);
            var c1 := a % HALF * (b / HALF);
            var c2 := a / HALF * (b % HALF);
            var c3 := a / HALF * (b / HALF);
            var c4 := c0 / HALF + c1 % HALF + c2 % HALF;
            var hi := c4 / HALF + c1 / HALF + c2 / HALF + c3;
            && 0 <= c0 < BASE && 0 <= c1 < BASE && 0 <= c2 < BASE && 0 <= c3 < BASE && 0 <= hi < BASE
            && BASE * hi + a * b % BASE == a * b
  {
    var al, ah, bl, bh := a % HALF, a / HALF, b % HALF, b / HALF;
    HalfProduct(al, bl);
    HalfProduct(al, bh);
    HalfProduct(ah, bl);
    HalfProduct(ah, bh);
    Expand(a, b, al, ah, bl, bh);
    WordProduct(a, b);
    Carries(al * bl, al * bh, ah * bl, ah * bh, a * b);
  }

  lemma Carries(c0: nat, c1: nat, c2: nat, c3: nat, ab: nat)
    requires ab == c0 + HALF * c1 + HALF * c2 + BASE * c3 && ab <= (BASE - 1) * (BASE - 1)
    ensures var hi := (c0 / HALF + c1 % HALF + c2 % HALF) / HALF + c1 / HALF + c2 / HALF + c3;
            0 <= hi < BASE && BASE * hi + ab % BASE == ab
  {
    var c4 := c0 / HALF + c1 % HALF + c2 % HALF;
    CarriesAdd(c0 / HALF, c0 % HALF, c1 / HALF, c1 % HALF, c2 / HALF, c2 % HALF, c3, c4 / HALF, c4 % HALF, ab);
  }

  lemma CarriesAdd(x0: nat, y0: nat, x1: nat, y1: nat, x2: nat, y2: nat, c3: nat, x4: nat, y4: nat, ab: nat)
    requires ab == (HALF * x0 + y0) + HALF * (HALF * x1 + y1) + HALF * (HALF * x2 + y2) + BASE * c3
    requires HALF * x4 + y4 == x0 + y1 + y2 && y0 < HALF && y4 < HALF && ab <= (BASE - 1) * (BASE - 1)
    ensures var hi := x4 + x1 + x2 + c3; 0 <= hi < BASE && BASE * hi + ab % BASE == ab
  {
    var hi, lo := x4 + x1 + x2 + c3, HALF * y4 + y0;
    assert ab == BASE * hi + lo && 0 <= lo < BASE;
  }

  lemma Expand(a: int, b: int, al: int, ah: int, bl: int, bh: int)
    requires a == ah * HALF + al && b == bh * HALF + bl
    ensures a * b == al * bl + HALF * (al * bh) + HALF * (ah * bl) + BASE * (ah * bh)
  {
    assert a * b == (ah * HALF + al) * b;
    assert (ah * HALF + al) * b == HALF * (ah * b) + al * b;
    assert ah * b == HALF * (ah * bh) + ah * bl;
    assert al * b == HALF * (al * bh) + al * bl;
  }

  lemma WordProduct(a: Word, b: Word)
    ensures 0 <= a * b <= (BASE - 1) * (BASE - 1)
  {
    MulMono(a, BASE - 1, b);
    MulMono(0, a, b);
  }

  // ---- runs of words ----

  lemma ValPush(s: seq<Word>, w: Word)
    ensures Val(s + [w]) == Val(s) + w * Pow(|s|)
  {
    assert (s + [w])[..|s|] == s;
  }

  lemma {:induction false} ValBound(s: seq<Word>)
    ensures Val(s) < Pow(|s|)
  {
    if s != [] {
      var p := Pow(|s| - 1);
      ValBound(s[..|s| - 1]);
      MulMono(s[|s| - 1], BASE - 1, p);
    }
  }

  lemma {:induction false} PowAdd(m: nat, n: nat)
    ensures Pow(m + n) == Pow(m) * Pow(n)
  {
    if m > 0 {
      PowAdd(m - 1, n);
      Associate(BASE, Pow(m - 1), Pow(n), Pow(m - 1 + n));
    }
  }

  lemma Associate(a: int, x: int, y: int, z: int)
    requires z == x * y
    ensures a * z == (a * x) * y
  {
  }

  lemma {:induction false} PowMonotone(m: nat, n: nat)
    requires m <= n
    ensures Pow(m) <= Pow(n)
    decreases n
  {
    if m < n { PowMonotone(m, n - 1); }
  }

  lemma {:induction false} ValAppend(s: seq<Word>, t: seq<Word>)
    ensures Val(s + t) == Val(s) + Pow(|s|) * Val(t)
    decreases t
  {
    if t == [] {
      assert s + t == s;
    } else {
      var u, w := t[..|t| - 1], t[|t| - 1];
      assert s + t == (s + u) + [w] && t == u + [w];
      ValAppend(s, u);
      ValPush(s + u, w);
      ValPush(u, w);
      PowAdd(|s|, |u|);
      Factor(Pow(|s|), Val(u), w, Pow(|u|));
    }
  }

  lemma Factor(p: int, v: int, w: int, q: int)
    ensures p * v + w * (p * q) == p * (v + w * q)
  {
  }

  lemma {:induction false} ValZeros(s: seq<Word>)
    requires forall i :: 0 <= i < |s| ==> s[i] == 0
    ensures Val(s) == 0
  {
    if s != [] { ValZeros(s[..|s| - 1]); }
  }

  /** A nonzero top word bounds the value from below. */
  lemma ValTop(s: seq<Word>)
    requires s != [] && s[|s| - 1] != 0
    ensures Pow(|s| - 1) <= Val(s)
  {
    MulMono(1, s[|s| - 1], Pow(|s| - 1));
  }

  /** A normalised run is no longer than its value needs. */
  lemma NormalLength(s: seq<Word>, n: nat)
    requires Normal(s) && Val(s) < Pow(n)
    ensures |s| <= n
  {
    if |s| > n {
      ValTop(s);
      PowMonotone(n, |s| - 1);
    }
  }

  /** Dropping zero words from the top does not change the value. */
  lemma {:induction false} ValTruncate(s: seq<Word>, n: nat)
    requires n <= |s| && forall i :: n <= i < |s| ==> s[i] == 0
    ensures Val(s[..n]) == Val(s)
    decreases |s|
  {
    if n < |s| {
      ValTruncate(s[..|s| - 1], n);
      assert s[..|s| - 1][..n] == s[..n];
    } else {
      assert s[..n] == s;
    }
  }

  /** Normal form is unique: equal values have equal words. */
  lemma {:induction false} NormalUnique(s: seq<Word>, t: seq<Word>)
    requires Normal(s) && Normal(t) && Val(s) == Val(t)
    ensures s == t
  {
    if |s| < |t| {
      ValBound(s);
      NormalLength(t, |s|);
    } else if |t| < |s| {
      ValBound(t);
      NormalLength(s, |t|);
    } else {
      SameWords(s, t);
    }
  }

  lemma {:induction false} SameWords(s: seq<Word>, t: seq<Word>)
    requires |s| == |t| && Val(s) == Val(t)
    ensures s == t
    decreases |s|
  {
    if s != [] {
      var n := |s| - 1;
      var p := Pow(n);
      ValBound(s[..n]);
      ValBound(t[..n]);
      TopDigit(Val(s[..n]), s[n], Val(t[..n]), t[n], p);
      SameWords(s[..n], t[..n]);
      assert s == s[..n] + [s[n]] && t == t[..n] + [t[n]];
    }
  }

  lemma TopDigit(v: nat, x: int, w: nat, y: int, p: nat)
    requires v < p && w < p && v + x * p == w + y * p
    ensures x == y && v == w
  {
    if x > y { MulMono(y + 1, x, p); }
    if x < y { MulMono(x + 1, y, p); }
  }

  /** The first difference from the top decides a comparison. */
  lemma {:induction false} CompareFrom(s: seq<Word>, t: seq<Word>, k: nat)
    requires |s| == |t| && k < |s| && s[k] < t[k] && forall i :: k < i < |s| ==> s[i] == t[i]
    ensures Val(s) < Val(t)
    decreases |s|
  {
    var n := |s| - 1;
    if k == n {
      ValBound(s[..n]);
      TopSmaller(Val(s[..n]), s[n], Val(t[..n]), t[n], Pow(n));
    } else {
      CompareFrom(s[..n], t[..n], k);
    }
  }

  lemma TopSmaller(v: nat, x: int, w: nat, y: int, p: nat)
    requires v < p && x < y
    ensures v + x * p < w + y * p
  {
    MulMono(x + 1, y, p);
  }
}
