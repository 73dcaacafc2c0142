/** Division with remainder: two fast paths and shift-subtract division, all with the same result. */
module Division {
  import opened Words
  import opened Bits
  import opened BitLevel
  import opened Karatsuba
  import opened BigInt

  /** `n = q * d + r` with `r < d`, for the magnitudes. */
  ghost predicate Divides(q: BigInt, r: BigInt, n: nat, d: nat)
    reads q`size, q`words, q.words, r`size, r`words, r.words
  {
    q.Valid() && r.Valid() && n == Times(q.Magnitude(), d) + r.Magnitude() && r.Magnitude() < d
  }

  /** Four numbers that may be given to a division. The results may overwrite the numerator, but not each other. The
      denominator may be overwritten by a result only on a path that does not need it any more: by either if both numbers
      have one word, by the remainder if the denominator is a half word. */
  ghost predicate Divisible(q: BigInt, r: BigInt, n: BigInt, d: BigInt)
    reads q`size, q`words, q.words, r`size, r`words, r.words, n`size, n`words, n.words, d`size, d`words, d.words
  {
    && q.Valid() && r.Valid() && n.Valid() && d.Valid() && q != r
    && q.Distinct(r) && q.Distinct(n) && q.Distinct(d) && r.Distinct(n) && r.Distinct(d) && n.Distinct(d)
    && (d.size == 0 || (d.size == 1 && n.size == 1) || (q != d && (r != d || (d.size == 1 && d.words[0] < HALF))))
  }

  /** The quotient is rounded towards zero and the remainder takes the sign of the numerator. Dividing
      by zero does nothing. */
  method DivMod(quotient: BigInt, remainder: BigInt, numerator: BigInt, denominator: BigInt) returns (ok: bool)
    requires Divisible(quotient, remainder, numerator, denominator)
    modifies quotient, quotient.words, remainder, remainder.words
    ensures ok <==> old(denominator.Magnitude()) != 0
    ensures ok ==> Divides(quotient, remainder, old(numerator.Magnitude()), old(denominator.Magnitude()))
    ensures ok ==> quotient.neg == (old(numerator.neg) != old(denominator.neg)) && remainder.neg == old(numerator.neg)
    ensures quotient.words == old(quotient.words) || fresh(quotient.words)
    ensures remainder.words == old(remainder.words) || fresh(remainder.words)
    ensures quotient.Distinct(remainder)
  {
    hide Divides;
    var nNeg, dNeg := numerator.neg, denominator.neg;
    ZeroSize(denominator);
    if denominator.size == 0 { return false; }
    DivideMagnitudes(quotient, remainder, numerator, denominator);
    quotient.neg := nNeg != dNeg;
    remainder.neg := nNeg;
    return true;
  }

  method DivideMagnitudes(quotient: BigInt, remainder: BigInt, numerator: BigInt, denominator: BigInt)
    requires Divisible(quotient, remainder, numerator, denominator) && denominator.size > 0
    modifies quotient, quotient.words, remainder, remainder.words
    ensures Divides(quotient, remainder, old(numerator.Magnitude()), old(denominator.Magnitude()))
    ensures quotient.words == old(quotient.words) || fresh(quotient.words)
    ensures remainder.words == old(remainder.words) || fresh(remainder.words)
    ensures quotient.Distinct(remainder)
  {
    hide Divides;
    ZeroSize(numerator);
    ZeroSize(denominator);
    if numerator.size == 1 && denominator.size == 1 {
      DivideWords(quotient, remainder, numerator.words[0], denominator.words[0]);
    } else if denominator.size == 1 && denominator.words[0] < HALF {
      DivideByHalfWord(quotient, remainder, numerator, denominator.words[0]);
    } else {
      DivideLong(quotient, remainder, numerator, denominator);
    }
  }

  lemma ZeroSize(a: BigInt)
    requires a.Valid()
    ensures a.size == 0 <==> a.Magnitude() == 0
    ensures a.size == 1 ==> a.Magnitude() == a.words[0]
  {
    if a.size > 0 { ValTop(a.words[..a.size]); }
    if a.size == 1 {
      assert a.words[..1] == [a.words[0]];
      OneWord(a.words[0]);
    }
  }

  /** Both fit into one word. The words are read before anything is written. */
  method DivideWords(quotient: BigInt, remainder: BigInt, a: Word, b: Word)
    requires quotient.Valid() && remainder.Valid() && quotient != remainder && quotient.Distinct(remainder) && b > 0
    modifies quotient, quotient.words, remainder, remainder.words
    ensures Divides(quotient, remainder, a, b) && quotient.Distinct(remainder)
    ensures quotient.words == old(quotient.words) || fresh(quotient.words)
    ensures remainder.words == old(remainder.words) || fresh(remainder.words)
  {
    QuotientFits(a, b);
    assert a == a / b * b + a % b;
    quotient.FromWord(a / b);
    remainder.FromWord(a % b);
  }

  method DivideByHalfWord(quotient: BigInt, remainder: BigInt, numerator: BigInt, d: Word)
    requires quotient.Valid() && remainder.Valid() && numerator.Valid() && quotient != remainder && 0 < d < HALF
    requires quotient.Distinct(remainder) && quotient.Distinct(numerator) && remainder.Distinct(numerator)
    modifies quotient, quotient.words, remainder, remainder.words
    ensures Divides(quotient, remainder, old(numerator.Magnitude()), d) && quotient.Distinct(remainder)
    ensures quotient.words == old(quotient.words) || fresh(quotient.words)
    ensures remainder.words == old(remainder.words) || fresh(remainder.words)
  {
    quotient.CopyFrom(numerator);
    var rem := quotient.DivModHalfWord(d);
    remainder.FromWord(rem);
  }

  // ---- shift and subtract ----

  /** What is left to divide, while bits from `shift` on have been decided. */
  predicate Dividing(n: nat, d: nat, q: nat, r: int, shift: nat) {
    r >= 0 && n == Times(q, d) + r && r < Times(d, Pow2(shift)) && q % Pow2(shift) == 0
  }

  lemma DivideStart(n: nat, d: nat, bn: nat, bd: nat)
    requires HasBits(n, bn) && HasBits(d, bd) && 0 < d <= n
    ensures bd <= bn && Dividing(n, d, 0, n, bn - bd + 1)
  {
    LengthsBoundQuotient(n, bn, d, bd);
    Quotient(0, Pow2(bn - bd + 1), 0, 0);
  }

  /** Deciding one bit. */
  lemma DivideStep(n: nat, d: nat, q: nat, r: int, shift: nat, part: nat)
    requires Dividing(n, d, q, r, shift + 1) && part == Times(d, Pow2(shift))
    ensures Bit(q, shift) == 0
    ensures if r >= part then Dividing(n, d, q + Pow2(shift), r - part, shift) else Dividing(n, d, q, r, shift)
  {
    var p, k := Pow2(shift), q / Pow2(shift + 1);
    assert q == k * (2 * p);
    EvenBit(q, p, k);
    if r >= part { StepArithmetic(n, d, q, r, p, k); } else { Quotient(q, p, 2 * k, 0); }
  }

  lemma EvenBit(q: nat, p: nat, k: nat)
    requires p > 0 && q == k * (2 * p)
    ensures q / p % 2 == 0 && q == p * (2 * k)
  {
    Quotient(q, p, 2 * k, 0);
  }

  lemma StepArithmetic(n: nat, d: nat, q: nat, r: int, p: nat, k: nat)
    requires p > 0 && q == p * (2 * k) && n == q * d + r && r < d * (2 * p)
    ensures n == (q + p) * d + (r - d * p) && r - d * p < d * p && (q + p) % p == 0
  {
    assert (q + p) * d == q * d + p * d;
    assert d * (2 * p) == d * p + d * p;
    Quotient(q + p, p, 2 * k + 1, 0);
  }

  lemma HalvePart(d: nat, shift: nat, part: nat)
    requires shift > 0 && part == Times(d, Pow2(shift))
    ensures part / Pow2(1) == Times(d, Pow2(shift - 1))
  {
    TwoIs();
    assert d * (2 * Pow2(shift - 1)) == 2 * (d * Pow2(shift - 1));
  }

  /** Decides the bit `shift` of the quotient and moves the divisor one bit down. */
  method DivideBit(quotient: BigInt, remainder: BigInt, divisor: BigInt, shift: nat, ghost n: nat, ghost d: nat)
    requires quotient.Valid() && remainder.Valid() && divisor.Valid()
    requires quotient != remainder && quotient != divisor && remainder != divisor
    requires quotient.Distinct(remainder) && quotient.Distinct(divisor) && remainder.Distinct(divisor)
    requires Dividing(n, d, quotient.Magnitude(), remainder.Value(), shift + 1) && !divisor.neg
    requires divisor.Magnitude() == Times(d, Pow2(shift)) && divisor.Magnitude() > 0
    modifies quotient, quotient.words, remainder, remainder.words, divisor, divisor.words
    ensures quotient.Valid() && remainder.Valid() && divisor.Valid()
    ensures quotient.words == old(quotient.words) || fresh(quotient.words)
    ensures remainder.words == old(remainder.words) || fresh(remainder.words)
    ensures divisor.words == old(divisor.words) || fresh(divisor.words)
    ensures quotient.Distinct(remainder) && quotient.Distinct(divisor) && remainder.Distinct(divisor)
    ensures Dividing(n, d, quotient.Magnitude(), remainder.Value(), shift) && !divisor.neg
    ensures shift > 0 ==> divisor.Magnitude() == Times(d, Pow2(shift - 1))
  {
    hide Dividing, Times, Pow2, Val, Normal;
    ZeroSize(divisor);
    ghost var q, r, part := quotient.Magnitude(), remainder.Value(), divisor.Magnitude();
    DivideStep(n, d, q, r, shift, part);
    NotNegative(n, d, q, r, shift + 1);
    var c := remainder.CompareAbs(divisor);
    if c >= 0 {
      remainder.Sub(remainder, divisor);
      quotient.SetBit(shift);
    }
    if shift > 0 { HalvePart(d, shift, part); }
    divisor.ShiftRight(divisor, 1);
  }

  lemma NotNegative(n: nat, d: nat, q: nat, r: int, shift: nat)
    requires Dividing(n, d, q, r, shift)
    ensures r >= 0
  {
  }

  method DivideLong(quotient: BigInt, remainder: BigInt, numerator: BigInt, denominator: BigInt)
    requires Divisible(quotient, remainder, numerator, denominator) && denominator.size > 0
    requires quotient != denominator && remainder != denominator
    modifies quotient, quotient.words, remainder, remainder.words
    ensures Divides(quotient, remainder, old(numerator.Magnitude()), old(denominator.Magnitude()))
    ensures quotient.words == old(quotient.words) || fresh(quotient.words)
    ensures remainder.words == old(remainder.words) || fresh(remainder.words)
    ensures quotient.Distinct(remainder)
  {
    hide Times, Pow2, Val;
    ghost var n, d := numerator.Magnitude(), denominator.Magnitude();
    ZeroSize(denominator);
    remainder.CopyFrom(numerator);
    remainder.neg := false;
    quotient.size := 0;
    NoQuotient(n, d, quotient.words[..0]);
    var c := remainder.CompareAbs(denominator);
    if c >= 0 { DivideBits(quotient, remainder, denominator, n, d); }
  }

  lemma NoQuotient(n: nat, d: nat, none: seq<Word>)
    requires none == []
    ensures Val(none) == 0 && n == Times(0, d) + n
  {
  }

  /** A copy of the magnitude, shifted left. */
  method Aligned(denominator: BigInt, shift: nat) returns (divisor: BigInt)
    requires denominator.Valid()
    ensures fresh(divisor) && fresh(divisor.words) && divisor.Valid() && !divisor.neg
    ensures divisor.Magnitude() == Times(denominator.Magnitude(), Pow2(shift))
  {
    hide Times, Pow2, Val, Normal;
    divisor := new BigInt();
    divisor.ShiftLeft(denominator, shift);
    divisor.neg := false;
  }

  /** From the bit where the leading bits of both meet down to bit zero. */
  method DivideBits(quotient: BigInt, remainder: BigInt, denominator: BigInt, ghost n: nat, ghost d: nat)
    requires quotient.Valid() && remainder.Valid() && denominator.Valid()
    requires quotient != remainder && quotient != denominator && remainder != denominator
    requires quotient.Distinct(remainder) && quotient.Distinct(denominator) && remainder.Distinct(denominator)
    requires quotient.Magnitude() == 0 && remainder.Magnitude() == n && !remainder.neg && denominator.Magnitude() == d
    requires 0 < d <= n
    modifies quotient, quotient.words, remainder, remainder.words
    ensures Divides(quotient, remainder, n, d) && quotient.Distinct(remainder)
    ensures quotient.words == old(quotient.words) || fresh(quotient.words)
    ensures remainder.words == old(remainder.words) || fresh(remainder.words)
  {
    hide Dividing, Times, Pow2, Val, HasBits, Normal;
    var bn := remainder.BitLength();
    var bd := denominator.BitLength();
    DivideStart(n, d, bn, bd);
    var shift: int := bn - bd;
    var divisor := Aligned(denominator, shift);
    while shift >= 0
      invariant -1 <= shift && quotient.Valid() && remainder.Valid() && divisor.Valid() && !divisor.neg
      invariant quotient.Distinct(remainder) && quotient.Distinct(divisor) && remainder.Distinct(divisor)
      invariant quotient.words == old(quotient.words) || fresh(quotient.words)
      invariant remainder.words == old(remainder.words) || fresh(remainder.words)
      invariant fresh(divisor.words) && Dividing(n, d, quotient.Magnitude(), remainder.Value(), shift + 1)
      invariant shift >= 0 ==> divisor.Magnitude() == Times(d, Pow2(shift))
      decreases shift
    {
      PartPositive(d, shift);
      DivideBit(quotient, remainder, divisor, shift, n, d);
      shift := shift - 1;
    }
    Divided(n, d, quotient.Magnitude(), remainder.Value());
  }

  lemma PartPositive(d: nat, shift: nat)
    requires d > 0
    ensures Times(d, Pow2(shift)) > 0
  {
    MulMono(1, d, Pow2(shift));
  }

  lemma Divided(n: nat, d: nat, q: nat, r: int)
    requires Dividing(n, d, q, r, 0)
    ensures n == Times(q, d) + r && 0 <= r < d
  {
    TwoIs();
  }
}
