/** Binary greatest common divisor. */
module Gcd {
  import opened Words
  import opened Raw
  import opened Bits
  import opened BitLevel
  import opened Karatsuba
  import opened BigInt
  import opened Division

  ghost predicate Divisor(d: nat, n: int) {
    exists k: int :: n == d * k
  }

  /** `g` divides both numbers and is a combination of them, so every common divisor divides it. */
  ghost predicate IsGcd(g: nat, a: nat, b: nat) {
    Divisor(g, a) && Divisor(g, b) && exists x: int, y: int :: Combines(g, x, y, a, b)
  }

  predicate Combines(g: int, x: int, y: int, a: int, b: int) {
    g == x * a + y * b
  }

  /** Nothing larger divides both. */
  lemma GcdIsGreatest(g: nat, a: nat, b: nat, d: nat)
    requires IsGcd(g, a, b) && Divisor(d, a) && Divisor(d, b)
    ensures Divisor(d, g) && (g > 0 ==> d <= g)
  {
    var x: int, y: int :| Combines(g, x, y, a, b);
    var i: int :| a == d * i;
    var j: int :| b == d * j;
    Combination(g, x, y, d, i, j, a, b);
    if g > 0 { AtMost(d, x * i + y * j, g); }
  }

  lemma Combination(g: int, x: int, y: int, d: int, i: int, j: int, a: int, b: int)
    requires g == x * a + y * b && a == d * i && b == d * j
    ensures g == d * (x * i + y * j)
  {
    assert x * (d * i) == d * (x * i) && y * (d * j) == d * (y * j);
  }

  lemma AtMost(d: nat, k: int, g: nat)
    requires g == d * k && g > 0
    ensures d <= g
  {
    if k <= 0 { MulMono(k, 0, d); }
    MulMono(1, k, d);
  }

  lemma GcdIsUnique(g: nat, h: nat, a: nat, b: nat)
    requires IsGcd(g, a, b) && IsGcd(h, a, b)
    ensures g == h
  {
    GcdIsGreatest(g, a, b, h);
    GcdIsGreatest(h, a, b, g);
    if g == 0 {
      var k: int :| h == g * k;
    } else if h == 0 {
      var k: int :| g == h * k;
    }
  }

  // ---- steps that keep the greatest common divisor ----

  lemma GcdZero(a: nat)
    ensures IsGcd(a, a, 0)
  {
    assert a == a * 1 && 0 == a * 0;
    assert Combines(a, 1, 0, a, 0);
  }

  lemma GcdSwap(g: nat, a: nat, b: nat)
    requires IsGcd(g, a, b)
    ensures IsGcd(g, b, a)
  {
    var x: int, y: int :| Combines(g, x, y, a, b);
    assert Combines(g, y, x, b, a);
  }

  /** Adding a multiple of one number to the other. */
  lemma GcdAdd(g: nat, a: nat, b: nat, q: nat, c: nat)
    requires IsGcd(g, a, b) && c == b + q * a
    ensures IsGcd(g, a, c)
  {
    var x: int, y: int :| Combines(g, x, y, a, b);
    var i: int :| a == g * i;
    var j: int :| b == g * j;
    AddMultiple(g, i, j, q, a, b, c);
    AddCombination(g, x, y, a, b, q, c);
    assert Combines(g, x - y * q, y, a, c);
  }

  lemma AddMultiple(g: int, i: int, j: int, q: int, a: int, b: int, c: int)
    requires a == g * i && b == g * j && c == b + q * a
    ensures c == g * (j + q * i)
  {
    assert q * (g * i) == g * (q * i);
  }

  lemma AddCombination(g: int, x: int, y: int, a: int, b: int, q: int, c: int)
    requires g == x * a + y * b && c == b + q * a
    ensures g == (x - y * q) * a + y * c
  {
    assert (x - y * q) * a == x * a - y * (q * a);
    assert y * (b + q * a) == y * b + y * (q * a);
  }

  /** Doubling one number while the other is odd. */
  lemma GcdDouble(g: nat, a: nat, b: nat)
    requires IsGcd(g, a, b) && a % 2 == 1
    ensures IsGcd(g, a, 2 * b)
  {
    var x: int, y: int :| Combines(g, x, y, a, b);
    var j: int :| b == g * j;
    assert 2 * b == g * (2 * j);
    if y % 2 == 0 {
      var h := y / 2;
      assert y == 2 * h;
      assert Combines(g, x, h, a, 2 * b) by { assert h * (2 * b) == (2 * h) * b; }
    } else {
      var h := (y + a) / 2;
      assert y + a == 2 * h;
      assert Combines(g, x - b, h, a, 2 * b) by { OddCase(g, x, y, a, b, h); }
    }
  }

  lemma OddCase(g: int, x: int, y: int, a: int, b: int, h: int)
    requires g == x * a + y * b && y + a == 2 * h
    ensures g == (x - b) * a + h * (2 * b)
  {
    assert h * (2 * b) == (2 * h) * b;
    assert (y + a) * b == y * b + a * b;
    assert (x - b) * a == x * a - b * a;
  }

  lemma {:induction false} GcdShift(g: nat, a: nat, b: nat, n: nat)
    requires IsGcd(g, a, b) && a % 2 == 1
    ensures IsGcd(g, a, Times(b, Pow2(n)))
    decreases n
  {
    if n > 0 {
      GcdShift(g, a, b, n - 1);
      GcdDouble(g, a, Times(b, Pow2(n - 1)));
      assert 2 * (b * Pow2(n - 1)) == b * (2 * Pow2(n - 1));
    } else {
      assert Times(b, Pow2(0)) == b by { TwoIs(); }
    }
  }

  /** Multiplying both numbers. */
  lemma GcdScale(g: nat, a: nat, b: nat, m: nat)
    requires IsGcd(g, a, b)
    ensures IsGcd(Times(g, m), Times(a, m), Times(b, m))
  {
    var x: int, y: int :| Combines(g, x, y, a, b);
    var i: int :| a == g * i;
    var j: int :| b == g * j;
    assert (g * i) * m == (g * m) * i && (g * j) * m == (g * m) * j;
    assert Combines(Times(g, m), x, y, Times(a, m), Times(b, m)) by {
      assert (x * a + y * b) * m == x * (a * m) + y * (b * m);
    }
  }

  // ---- machine words ----

  /** Remainders alternately replace the two numbers. */
  method WordGcd(a: Word, b: Word) returns (g: Word)
    ensures IsGcd(g, a, b)
  {
    var x, y := a, b;
    while true
      invariant forall h: nat :: IsGcd(h, x, y) ==> IsGcd(h, a, b)
      decreases x
    {
      if x == 0 {
        GcdZero(y);
        GcdSwap(y, y, 0);
        return y;
      }
      ghost var y0 := y;
      y := y % x;
      assert y0 == y + y0 / x * x;
      forall h: nat | IsGcd(h, x, y)
        ensures IsGcd(h, x, y0)
      {
        GcdAdd(h, x, y, y0 / x, y0);
      }
      if y == 0 {
        GcdZero(x);
        return x;
      }
      ghost var x0 := x;
      x := x % y;
      assert x0 == x + x0 / y * y;
      forall h: nat | IsGcd(h, x, y)
        ensures IsGcd(h, x0, y)
      {
        GcdSwap(h, x, y);
        GcdAdd(h, y, x, x0 / y, x0);
        GcdSwap(h, y, x0);
      }
    }
  }

  // ---- big numbers ----

  /** Whatever is the greatest common divisor of what is left, times a power of two, is the one of the
      original numbers. */
  ghost predicate Leads(a: nat, b: nat, a0: nat, b0: nat, p: nat) {
    forall g: nat :: IsGcd(g, a, b) ==> IsGcd(Times(g, p), a0, b0)
  }

  /** What is common to both numbers is shifted out of `b`, and all trailing zeros out of `a`. */
  lemma LeadsStart(a0: nat, b0: nat, za: nat, zb: nat)
    requires a0 % Pow2(za) == 0 && Bit(a0, za) == 1 && b0 % Pow2(zb) == 0 && Bit(b0, zb) == 1
    ensures var s := Min(za, zb);
            Leads(a0 / Pow2(za), b0 / Pow2(s), a0, b0, Pow2(s)) && a0 / Pow2(za) % 2 == 1
  {
    hide IsGcd;
    var s := Min(za, zb);
    var x, y := a0 / Pow2(za), b0 / Pow2(s);
    ShiftedOut(a0, za);
    if za <= zb {
      ShiftedOutLess(b0, zb, za);
      forall g: nat | IsGcd(g, x, y)
        ensures IsGcd(Times(g, Pow2(s)), a0, b0)
      {
        GcdScale(g, x, y, Pow2(s));
      }
    } else {
      ShiftedOut(b0, zb);
      ShiftedOutTwice(a0, za, zb);
      forall g: nat | IsGcd(g, x, y)
        ensures IsGcd(Times(g, Pow2(s)), a0, b0)
      {
        GcdSwap(g, x, y);
        GcdShift(g, y, x, za - zb);
        GcdSwap(g, y, Times(x, Pow2(za - zb)));
        GcdScale(g, Times(x, Pow2(za - zb)), y, Pow2(s));
      }
    }
  }

  lemma ShiftedOut(v: nat, n: nat)
    requires v % Pow2(n) == 0
    ensures Times(v / Pow2(n), Pow2(n)) == v
  {
  }

  lemma ShiftedOutLess(v: nat, n: nat, m: nat)
    requires v % Pow2(n) == 0 && m <= n
    ensures Times(v / Pow2(m), Pow2(m)) == v
  {
    Pow2Add(n - m, m);
    DividesLess(v, Pow2(n), Pow2(n - m), Pow2(m));
  }

  lemma DividesLess(v: nat, p: nat, q: nat, r: nat)
    requires p > 0 && r > 0 && p == q * r && v % p == 0
    ensures v / r * r == v
  {
    var k := v / p;
    assert v == k * p;
    assert k * (q * r) == r * (k * q);
    Quotient(v, r, k * q, 0);
  }

  lemma ShiftedOutTwice(v: nat, n: nat, m: nat)
    requires v % Pow2(n) == 0 && m <= n
    ensures Times(Times(v / Pow2(n), Pow2(n - m)), Pow2(m)) == v
  {
    var k := v / Pow2(n);
    assert v == k * Pow2(n);
    Pow2Add(n - m, m);
    assert k * (Pow2(n - m) * Pow2(m)) == (k * Pow2(n - m)) * Pow2(m);
  }

  /** Shifting zeros out of the second number while the first is odd. */
  lemma LeadsShift(a: nat, b: nat, a0: nat, b0: nat, p: nat, z: nat)
    requires Leads(a, b, a0, b0, p) && a % 2 == 1 && b % Pow2(z) == 0
    ensures Leads(a, b / Pow2(z), a0, b0, p)
  {
    hide IsGcd;
    ShiftedOut(b, z);
    forall g: nat | IsGcd(g, a, b / Pow2(z))
      ensures IsGcd(Times(g, p), a0, b0)
    {
      GcdShift(g, a, b / Pow2(z), z);
    }
  }

  lemma LeadsSwap(a: nat, b: nat, a0: nat, b0: nat, p: nat)
    requires Leads(a, b, a0, b0, p)
    ensures Leads(b, a, a0, b0, p)
  {
    hide IsGcd;
    forall g: nat | IsGcd(g, b, a)
      ensures IsGcd(Times(g, p), a0, b0)
    {
      GcdSwap(g, b, a);
    }
  }

  lemma LeadsSubtract(a: nat, b: nat, a0: nat, b0: nat, p: nat)
    requires Leads(a, b, a0, b0, p) && a <= b
    ensures Leads(a, b - a, a0, b0, p)
  {
    hide IsGcd;
    forall g: nat | IsGcd(g, a, b - a)
      ensures IsGcd(Times(g, p), a0, b0)
    {
      GcdAdd(g, a, b - a, 1, b);
    }
  }

  lemma LeadsEnd(a: nat, a0: nat, b0: nat, p: nat)
    requires Leads(a, 0, a0, b0, p)
    ensures IsGcd(Times(a, p), a0, b0)
  {
    GcdZero(a);
  }

  /** Two positive numbers, the first one odd, become their greatest common divisor and zero: trailing
      zeros are shifted out and the smaller number is subtracted from the larger. */
  method Reduce(first: BigInt, second: BigInt, ghost a0: nat, ghost b0: nat, ghost p: nat) returns (x: BigInt)
    requires first.Valid() && second.Valid() && first != second && first.Distinct(second) && !first.neg && !second.neg
    requires first.Magnitude() % 2 == 1 && second.Magnitude() > 0
    requires Leads(first.Magnitude(), second.Magnitude(), a0, b0, p)
    modifies first, first.words, second, second.words
    ensures (x == first || x == second) && x.Valid() && !x.neg && IsGcd(Times(x.Magnitude(), p), a0, b0)
    ensures x.words == old(first.words) || x.words == old(second.words) || fresh(x.words)
  {
    hide Leads, IsGcd, Val, Times, Pow2, Bit;
    var a, b := first, second;
    var more := true;
    while more
      invariant Working(a, b, a0, b0, p)
      invariant (a == first && b == second) || (a == second && b == first)
      invariant first.words == old(first.words) || first.words == old(second.words) || fresh(first.words)
      invariant second.words == old(first.words) || second.words == old(second.words) || fresh(second.words)
      invariant if more then b.Magnitude() > 0 && !b.neg else b.Magnitude() == 0
      decreases a.Magnitude() + b.Magnitude(), more
    {
      a, b := ReduceOnce(a, b, a0, b0, p);
      ZeroSize(b);
      more := b.size != 0;
    }
    LeadsEnd(a.Magnitude(), a0, b0, p);
    x := a;
  }

  ghost predicate Working(a: BigInt, b: BigInt, a0: nat, b0: nat, p: nat)
    reads a, a.words, b, b.words
  {
    && a.Valid() && b.Valid() && a != b && a.Distinct(b)
    && !a.neg && a.Magnitude() % 2 == 1 && Leads(a.Magnitude(), b.Magnitude(), a0, b0, p)
  }

  method ReduceOnce(a: BigInt, b: BigInt, ghost a0: nat, ghost b0: nat, ghost p: nat) returns (x: BigInt, y: BigInt)
    requires Working(a, b, a0, b0, p) && b.Magnitude() > 0 && !b.neg
    modifies a, a.words, b, b.words
    ensures Working(x, y, a0, b0, p) && ((x == a && y == b) || (x == b && y == a)) && (y.Magnitude() > 0 ==> !y.neg)
    ensures x.Magnitude() + y.Magnitude() < old(a.Magnitude() + b.Magnitude())
    ensures a.words == old(a.words) || fresh(a.words)
    ensures b.words == old(b.words) || fresh(b.words)
  {
    hide Leads, Val, Times, Pow2, Bit, Normal;
    ghost var av, bv := a.Magnitude(), b.Magnitude();
    ZeroSize(b);
    var z := b.TrailingZeros();
    LeadsShift(av, bv, a0, b0, p, z);
    Stripped(bv, z);
    b.ShiftRight(b, z);
    x, y := a, b;
    LeadsSwap(x.Magnitude(), y.Magnitude(), a0, b0, p);
    var c := x.CompareAbs(y);
    if c > 0 { x, y := y, x; }
    LeadsSubtract(x.Magnitude(), y.Magnitude(), a0, b0, p);
    y.Sub(y, x);
  }

  lemma Stripped(v: nat, z: nat)
    requires v > 0 && Bit(v, z) == 1
    ensures 0 < v / Pow2(z) <= v && v / Pow2(z) % 2 == 1
  {
    hide Pow2;
    StrippedQuotient(v, Pow2(z), v / Pow2(z), v % Pow2(z));
  }

  lemma StrippedQuotient(v: nat, p: nat, q: int, r: nat)
    requires p > 0 && v == p * q + r && r < p && q % 2 == 1
    ensures 0 < q <= v
  {
    if q < 0 { MulMono(q, -1, p); }
    MulMono(1, p, q);
  }

  /** `this = gcd(a, b)` */
  method BigGcd(dst: BigInt, a: BigInt, b: BigInt)
    requires dst.Valid() && a.Valid() && b.Valid() && dst.Distinct(a) && dst.Distinct(b) && a.Distinct(b)
    modifies dst, dst.words
    ensures dst.Valid() && !dst.neg && IsGcd(dst.Magnitude(), old(a.Magnitude()), old(b.Magnitude()))
    ensures dst.words == old(dst.words) || fresh(dst.words)
  {
    ZeroSize(a);
    ZeroSize(b);
    if a.size == 0 {
      GcdZero(b.Magnitude());
      GcdSwap(b.Magnitude(), b.Magnitude(), 0);
      dst.CopyFrom(b);
      dst.neg := false;
      return;
    }
    if b.size == 0 {
      GcdZero(a.Magnitude());
      dst.CopyFrom(a);
      dst.neg := false;
      return;
    }
    if a.size == 1 && b.size == 1 {
      var word := WordGcd(a.words[0], b.words[0]);
      dst.FromWord(word);
      return;
    }
    BinaryGcd(dst, a, b);
  }

  /** A copy of the magnitude, shifted right. */
  method Lowered(a: BigInt, shift: nat) returns (x: BigInt)
    requires a.Valid() && (shift % WORD_BITS == 0 || shift / WORD_BITS < a.size)
    ensures fresh(x) && fresh(x.words) && x.Valid() && !x.neg && x.Magnitude() == a.Magnitude() / Pow2(shift)
  {
    hide Val, Pow2, Normal;
    x := new BigInt();
    x.ShiftRight(a, shift);
    x.neg := false;
  }

  method BinaryGcd(dst: BigInt, a: BigInt, b: BigInt)
    requires dst.Valid() && a.Valid() && b.Valid() && dst.Distinct(a) && dst.Distinct(b) && a.Distinct(b)
    requires a.size > 0 && b.size > 0
    modifies dst, dst.words
    ensures dst.Valid() && !dst.neg && IsGcd(dst.Magnitude(), old(a.Magnitude()), old(b.Magnitude()))
    ensures dst.words == old(dst.words) || fresh(dst.words)
  {
    hide Leads, IsGcd, Val, Times, Pow2, Bit, Normal;
    ghost var av, bv := a.Magnitude(), b.Magnitude();
    var shiftA := a.TrailingZeros();
    var shiftB := b.TrailingZeros();
    var shift := Min(shiftA, shiftB);
    LeadsStart(av, bv, shiftA, shiftB);
    StillThere(bv, shiftB, shift);
    var x := Lowered(a, shiftA);
    var y := Lowered(b, shift);
    var g := Reduce(x, y, av, bv, Pow2(shift));
    dst.ShiftLeft(g, shift);
  }

  lemma StillThere(v: nat, n: nat, m: nat)
    requires Bit(v, n) == 1 && m <= n
    ensures v / Pow2(m) > 0
  {
    Pow2Monotone(m, n);
    MulMono(1, Pow2(m), v + 1);
    BelowQuotient(v, v + 1, Pow2(m));
    assert v == v / Pow2(m) * Pow2(m) + v % Pow2(m);
    if v / Pow2(m) == 0 { Quotient(v, Pow2(n), 0, v); }
  }
}
