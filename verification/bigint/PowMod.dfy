/** Modular power by repeated squaring. */
module PowMod {
  import opened Words
  import opened Bits
  import opened BitLevel
  import opened Karatsuba
  import opened BigInt
  import opened Division

  function Power(b: nat, e: nat): nat {
    if e == 0 then 1 else Times(b, Power(b, e - 1))
  }

  // ---- congruence ----

  ghost predicate Congruent(x: int, y: int, m: nat) {
    exists k: int :: x - y == m * k
  }

  lemma Reflexive(x: int, m: nat)
    ensures Congruent(x, x, m)
  {
    assert x - x == m * 0;
  }

  lemma Transitive(x: int, y: int, z: int, m: nat)
    requires Congruent(x, y, m) && Congruent(y, z, m)
    ensures Congruent(x, z, m)
  {
    var i: int :| x - y == m * i;
    var j: int :| y - z == m * j;
    assert x - z == m * (i + j);
  }

  lemma Multiplied(x: int, x': int, y: int, y': int, m: nat)
    requires Congruent(x, x', m) && Congruent(y, y', m)
    ensures Congruent(x * y, x' * y', m)
  {
    var i: int :| x - x' == m * i;
    var j: int :| y - y' == m * j;
    Products(x, x', y, y', m, i, j);
  }

  lemma Products(x: int, x': int, y: int, y': int, m: int, i: int, j: int)
    requires x - x' == m * i && y - y' == m * j
    ensures x * y - x' * y' == m * (i * y + x' * j)
  {
    assert x * y - x' * y' == (x - x') * y + x' * (y - y');
    assert (m * i) * y == m * (i * y) && x' * (m * j) == m * (x' * j);
  }

  /** A remainder is congruent to what was divided, and the only such number below the modulus. */
  lemma RemainderCongruent(n: nat, q: nat, d: nat, r: nat)
    requires n == Times(q, d) + r
    ensures Congruent(r, n, d)
  {
    var k := -(q as int);
    assert r - n == d * k;
  }

  lemma Residue(x: nat, y: nat, m: nat)
    requires m > 0 && Congruent(x, y, m) && x < m
    ensures x == y % m
  {
    var k: int :| x - y == m * k;
    if k > 0 { MulMono(1, k, m); }
    assert y == m * (-k) + x;
    Quotient(y, m, -k, x);
  }

  lemma {:induction false} PowerCongruent(x: nat, y: nat, m: nat, e: nat)
    requires Congruent(x, y, m)
    ensures Congruent(Power(x, e), Power(y, e), m)
    decreases e
  {
    if e == 0 {
      Reflexive(1, m);
    } else {
      PowerCongruent(x, y, m, e - 1);
      Multiplied(x, y, Power(x, e - 1), Power(y, e - 1), m);
    }
  }

  lemma {:induction false} PowerSquare(x: nat, e: nat)
    ensures Power(Times(x, x), e) == Power(x, 2 * e)
    decreases e
  {
    hide Times;
    if e > 0 {
      PowerSquare(x, e - 1);
      TimesAssociate(x, x, Power(x, 2 * e - 2));
      assert Power(x, 2 * e - 1) == Times(x, Power(x, 2 * e - 2));
    }
  }

  lemma TimesAssociate(x: nat, y: nat, z: nat)
    ensures Times(Times(x, y), z) == Times(x, Times(y, z))
  {
    assert (x * y) * z == x * (y * z);
  }

  // ---- one step ----

  /** `dst * base^exponent` is still congruent to the target. */
  ghost predicate Powering(dst: nat, base: nat, exponent: nat, target: nat, m: nat) {
    Congruent(Times(dst, Power(base, exponent)), target, m)
  }

  lemma PowerStep(dst: nat, base: nat, e: nat, target: nat, m: nat, dst': nat, base': nat)
    requires e > 0 && Powering(dst, base, e, target, m)
    requires if e % 2 == 1 then Congruent(dst', Times(dst, base), m) else dst' == dst
    requires Congruent(base', Times(base, base), m)
    ensures Powering(dst', base', e / 2, target, m)
  {
    var h := e / 2;
    var d := if e % 2 == 1 then Times(dst, base) else dst;
    if e % 2 == 0 { Reflexive(dst, m); }
    PowerCongruent(base', Times(base, base), m, h);
    PowerSquare(base, h);
    Multiplied(dst', d, Power(base', h), Power(base, 2 * h), m);
    assert Times(d, Power(base, 2 * h)) == Times(dst, Power(base, e)) by {
      if e % 2 == 1 {
        assert Power(base, e) == Times(base, Power(base, 2 * h));
        assert (dst * base) * Power(base, 2 * h) == dst * (base * Power(base, 2 * h));
      }
    }
    Transitive(Times(dst', Power(base', h)), Times(dst, Power(base, e)), target, m);
  }

  lemma PowerEnd(dst: nat, base: nat, target: nat, m: nat)
    requires Powering(dst, base, 0, target, m) && m > 0 && dst < m
    ensures dst == target % m
  {
    Residue(dst, target, m);
  }

  /** Separate numbers in separate words. */
  predicate Separate(a: BigInt, b: BigInt)
    reads a`words, b`words
  {
    a != b && a.words != b.words
  }

  /** The numbers that a multiplication with reduction uses besides its operand. */
  ghost predicate Tools(dst: BigInt, tmp: BigInt, unused: BigInt, modulus: BigInt)
    reads dst, dst.words, tmp, tmp.words, unused, unused.words, modulus, modulus.words
  {
    && dst.Valid() && tmp.Valid() && unused.Valid() && modulus.Valid()
    && Separate(dst, tmp) && Separate(dst, unused) && Separate(dst, modulus)
    && Separate(tmp, unused) && Separate(tmp, modulus) && Separate(unused, modulus)
  }

  /** `dst = dst * factor % modulus`; the factor may be `dst`. */
  method MulMod(dst: BigInt, factor: BigInt, tmp: BigInt, unused: BigInt, modulus: BigInt, ghost m: nat)
    requires Tools(dst, tmp, unused, modulus) && m == modulus.Magnitude() && m > 0
    requires factor.Valid() && factor.Distinct(dst) && Separate(factor, tmp) && Separate(factor, unused)
    requires Separate(factor, modulus)
    modifies dst, dst.words, tmp, tmp.words, unused, unused.words
    ensures Tools(dst, tmp, unused, modulus) && dst.Magnitude() < m
    ensures Congruent(dst.Magnitude(), Times(old(dst.Magnitude()), old(factor.Magnitude())), m)
    ensures dst.neg == (old(dst.neg) != old(factor.neg))
    ensures dst.words == old(dst.words) || fresh(dst.words)
    ensures tmp.words == old(tmp.words) || fresh(tmp.words)
    ensures unused.words == old(unused.words) || fresh(unused.words)
  {
    hide Val, Times, Congruent, Normal;
    tmp.Mul(dst, factor);
    ghost var product := tmp.Magnitude();
    var _ := DivMod(unused, dst, tmp, modulus);
    RemainderCongruent(product, unused.Magnitude(), m, dst.Magnitude());
  }

  /** What one bit of the exponent does to the two numbers. */
  ghost predicate Stepped(dst: nat, dNeg: bool, base: nat, bNeg: bool, dst': nat, dNeg': bool, base': nat, odd: bool, m: nat) {
    && (if odd then dst' < m && dNeg' == (dNeg != bNeg) && Congruent(dst', Times(dst, base), m) else dst' == dst && dNeg' == dNeg)
    && Congruent(base', Times(base, base), m)
  }

  ghost predicate Ready(dst: BigInt, base: BigInt, exponent: BigInt, tmp: BigInt, unused: BigInt, modulus: BigInt, m: nat)
    reads dst, dst.words, base, base.words, exponent, exponent.words, tmp, tmp.words, unused, unused.words, modulus, modulus.words
  {
    && Tools(dst, tmp, unused, modulus) && Tools(base, tmp, unused, modulus) && Tools(exponent, tmp, unused, modulus)
    && Separate(dst, base) && Separate(dst, exponent) && Separate(base, exponent) && m == modulus.Magnitude() && m > 0
  }

  /** One bit of the exponent: multiply if it is set, and square. */
  method PowerBit(dst: BigInt, base: BigInt, ghost exponent: BigInt, bit: nat, tmp: BigInt, unused: BigInt, modulus: BigInt,
      ghost m: nat)
    requires Ready(dst, base, exponent, tmp, unused, modulus, m)
    modifies dst, dst.words, base, base.words, tmp, tmp.words, unused, unused.words
    ensures Ready(dst, base, exponent, tmp, unused, modulus, m) && !base.neg
    ensures exponent.Magnitude() == old(exponent.Magnitude())
    ensures Stepped(old(dst.Magnitude()), old(dst.neg), old(base.Magnitude()), old(base.neg),
                    dst.Magnitude(), dst.neg, base.Magnitude(), bit != 0, m)
    ensures dst.words == old(dst.words) || fresh(dst.words)
    ensures base.words == old(base.words) || fresh(base.words)
    ensures tmp.words == old(tmp.words) || fresh(tmp.words)
    ensures unused.words == old(unused.words) || fresh(unused.words)
  {
    hide Val, Times, Congruent, Normal;
    if bit != 0 { MulMod(dst, base, tmp, unused, modulus, m); }
    MulMod(base, base, tmp, unused, modulus, m);
  }

  /** A repeated-squaring run: how far it is, and what sign the result will have. */
  ghost predicate Running(dst: nat, dNeg: bool, base: nat, bNeg: bool, e: nat, b: nat, neg: bool, e0: nat, m: nat) {
    && m > 0 && Powering(dst, base, e, Power(b, e0), m) && e <= e0
    && (e < e0 ==> !bNeg && dNeg == (neg && e0 % 2 == 1) && (dst < m || (dst == 1 && e > 0)))
    && (e == e0 ==> bNeg == neg && !dNeg && dst == 1)
  }

  lemma RunStep(dst: nat, dNeg: bool, base: nat, bNeg: bool, e: nat, b: nat, neg: bool, e0: nat, m: nat,
      dst': nat, dNeg': bool, base': nat)
    requires Running(dst, dNeg, base, bNeg, e, b, neg, e0, m) && e > 0
    requires Stepped(dst, dNeg, base, bNeg, dst', dNeg', base', e % 2 != 0, m)
    ensures Running(dst', dNeg', base', false, e / 2, b, neg, e0, m)
  {
    hide Powering, Congruent;
    PowerStep(dst, base, e, Power(b, e0), m, dst', base');
  }

  lemma RunEnd(dst: nat, dNeg: bool, base: nat, bNeg: bool, b: nat, neg: bool, e0: nat, m: nat)
    requires Running(dst, dNeg, base, bNeg, 0, b, neg, e0, m)
    ensures dNeg == (neg && e0 % 2 == 1) && dst == if e0 == 0 then 1 else Power(b, e0) % m
  {
    hide Powering;
    if e0 > 0 { PowerEnd(dst, base, Power(b, e0), m); }
  }

  /** The lowest bit of the exponent, which is then shifted out. */
  method TakeBit(ghost dst: BigInt, ghost base: BigInt, exponent: BigInt, ghost tmp: BigInt, ghost unused: BigInt,
      ghost modulus: BigInt, ghost m: nat) returns (bit: nat)
    requires Ready(dst, base, exponent, tmp, unused, modulus, m) && exponent.size > 0
    modifies exponent, exponent.words
    ensures Ready(dst, base, exponent, tmp, unused, modulus, m)
    ensures bit == old(exponent.Magnitude()) % 2 && exponent.Magnitude() == old(exponent.Magnitude()) / 2
    ensures old(exponent.Magnitude()) > 0 && (exponent.words == old(exponent.words) || fresh(exponent.words))
    ensures dst.Magnitude() == old(dst.Magnitude()) && base.Magnitude() == old(base.Magnitude())
    ensures dst.neg == old(dst.neg) && base.neg == old(base.neg)
  {
    hide Val, Normal, Pow2;
    ZeroSize(exponent);
    bit := GetBit(exponent.words, exponent.size, 0);
    BitZero(exponent.Magnitude());
    exponent.ShiftRight(exponent, 1);
  }

  /** One turn of the loop of `PowMod`. */
  method PowerTurn(dst: BigInt, base: BigInt, exponent: BigInt, tmp: BigInt, unused: BigInt, modulus: BigInt,
      ghost b: nat, ghost neg: bool, ghost e: nat, ghost m: nat)
    requires Ready(dst, base, exponent, tmp, unused, modulus, m) && exponent.size > 0
    requires Running(dst.Magnitude(), dst.neg, base.Magnitude(), base.neg, exponent.Magnitude(), b, neg, e, m)
    modifies dst, dst.words, base, base.words, exponent, exponent.words, tmp, tmp.words, unused, unused.words
    ensures Ready(dst, base, exponent, tmp, unused, modulus, m)
    ensures Running(dst.Magnitude(), dst.neg, base.Magnitude(), base.neg, exponent.Magnitude(), b, neg, e, m)
    ensures exponent.Magnitude() < old(exponent.Magnitude())
    ensures dst.words == old(dst.words) || fresh(dst.words)
    ensures base.words == old(base.words) || fresh(base.words)
    ensures exponent.words == old(exponent.words) || fresh(exponent.words)
    ensures tmp.words == old(tmp.words) || fresh(tmp.words)
    ensures unused.words == old(unused.words) || fresh(unused.words)
  {
    hide Val, Normal, Running, Stepped, Pow2, Power;
    hide Ready;
    ReadyValid(dst, base, exponent, tmp, unused, modulus, m);
    ghost var x, d0, n0, b0, s0 := exponent.Magnitude(), dst.Magnitude(), dst.neg, base.Magnitude(), base.neg;
    var bit := TakeBit(dst, base, exponent, tmp, unused, modulus, m);
    PowerBit(dst, base, exponent, bit, tmp, unused, modulus, m);
    ReadyValid(dst, base, exponent, tmp, unused, modulus, m);
    RunStep(d0, n0, b0, s0, x, b, neg, e, m, dst.Magnitude(), dst.neg, base.Magnitude());
  }

  lemma ReadyValid(dst: BigInt, base: BigInt, exponent: BigInt, tmp: BigInt, unused: BigInt, modulus: BigInt, m: nat)
    requires Ready(dst, base, exponent, tmp, unused, modulus, m)
    ensures dst.Valid() && base.Valid() && exponent.Valid()
  {
  }

  /** The loop of `PowMod`. */
  method PowerLoop(dst: BigInt, base: BigInt, exponent: BigInt, tmp: BigInt, unused: BigInt, modulus: BigInt,
      ghost b: nat, ghost neg: bool, ghost e: nat, ghost m: nat)
    requires Ready(dst, base, exponent, tmp, unused, modulus, m)
    requires Running(dst.Magnitude(), dst.neg, base.Magnitude(), base.neg, e, b, neg, e, m) && exponent.Magnitude() == e
    modifies dst, dst.words, base, base.words, exponent, exponent.words, tmp, tmp.words, unused, unused.words
    ensures dst.Valid() && dst.neg == (neg && e % 2 == 1)
    ensures dst.Magnitude() == if e == 0 then 1 else Power(b, e) % m
  {
    hide Val, Normal, Running, Power, Ready;
    ReadyValid(dst, base, exponent, tmp, unused, modulus, m);
    while exponent.size != 0
      invariant Ready(dst, base, exponent, tmp, unused, modulus, m) && dst.Valid() && base.Valid() && exponent.Valid()
      invariant dst.words == old(dst.words) || fresh(dst.words)
      invariant base.words == old(base.words) || fresh(base.words)
      invariant exponent.words == old(exponent.words) || fresh(exponent.words)
      invariant tmp.words == old(tmp.words) || fresh(tmp.words)
      invariant unused.words == old(unused.words) || fresh(unused.words)
      invariant Running(dst.Magnitude(), dst.neg, base.Magnitude(), base.neg, exponent.Magnitude(), b, neg, e, m)
      decreases exponent.Magnitude()
    {
      PowerTurn(dst, base, exponent, tmp, unused, modulus, b, neg, e, m);
      ReadyValid(dst, base, exponent, tmp, unused, modulus, m);
    }
    ZeroSize(exponent);
    RunEnd(dst.Magnitude(), dst.neg, base.Magnitude(), base.neg, b, neg, e, m);
  }

  lemma BitZero(v: nat)
    ensures Bit(v, 0) == v % 2 && Pow2(1) == 2
  {
    TwoIs();
  }

  method Copied(src: BigInt) returns (copy: BigInt)
    requires src.Valid()
    ensures fresh(copy) && fresh(copy.words) && copy.Valid()
    ensures copy.Magnitude() == src.Magnitude() && copy.neg == src.neg
  {
    hide Val, Normal;
    copy := new BigInt();
    copy.CopyFrom(src);
  }

  /** Copies of the operands, with the base already reduced. */
  method Operands(srcBase: BigInt, srcExponent: BigInt, srcModulus: BigInt)
    returns (ok: bool, base: BigInt, exponent: BigInt, unused: BigInt, modulus: BigInt)
    requires srcBase.Valid() && srcExponent.Valid() && srcModulus.Valid()
    ensures fresh(base) && fresh(exponent) && fresh(unused) && fresh(modulus)
    ensures fresh(base.words) && fresh(exponent.words) && fresh(unused.words) && fresh(modulus.words)
    ensures Separate(base, unused) && Separate(base, modulus) && Separate(unused, modulus)
    ensures Separate(exponent, base) && Separate(exponent, unused) && Separate(exponent, modulus)
    ensures ok <==> srcModulus.Magnitude() != 0
    ensures exponent.Valid() && exponent.Magnitude() == srcExponent.Magnitude()
    ensures modulus.Valid() && modulus.Magnitude() == srcModulus.Magnitude()
    ensures ok ==> Divides(unused, base, srcBase.Magnitude(), srcModulus.Magnitude()) && base.neg == srcBase.neg
  {
    hide Val, Normal;
    exponent := Copied(srcExponent);
    modulus := Copied(srcModulus);
    base := new BigInt();
    unused := new BigInt();
    ok := DivMod(unused, base, srcBase, modulus);
  }

  /** From one, with the base already reduced. */
  method PowerRun(dst: BigInt, base: BigInt, exponent: BigInt, unused: BigInt, modulus: BigInt,
      ghost b: nat, ghost neg: bool, ghost e: nat, ghost m: nat)
    requires dst.Valid() && base.Valid() && exponent.Valid() && unused.Valid() && modulus.Valid()
    requires Separate(dst, base) && Separate(dst, exponent) && Separate(dst, unused) && Separate(dst, modulus)
    requires Separate(base, unused) && Separate(base, modulus) && Separate(unused, modulus)
    requires Separate(exponent, base) && Separate(exponent, unused) && Separate(exponent, modulus)
    requires m == modulus.Magnitude() && exponent.Magnitude() == e
    requires Running(1, false, base.Magnitude(), base.neg, e, b, neg, e, m)
    modifies dst, dst.words, base, base.words, exponent, exponent.words, unused, unused.words
    ensures dst.Valid() && dst.neg == (neg && e % 2 == 1)
    ensures dst.Magnitude() == if e == 0 then 1 else Power(b, e) % m
  {
    hide Val, Normal, Power, Powering;
    dst.FromWord(1);
    var tmp := new BigInt();
    PowerLoop(dst, base, exponent, tmp, unused, modulus, b, neg, e, m);
  }

  /** `dst = base^exponent % modulus` by repeated squaring; `dst` may be any of the others. The remainder takes
      the sign of the power; a power of zero is one, whatever the modulus. */
  method PowMod(dst: BigInt, srcBase: BigInt, srcExponent: BigInt, srcModulus: BigInt) returns (ok: bool)
    requires dst.Valid() && srcBase.Valid() && srcExponent.Valid() && srcModulus.Valid()
    requires dst.Distinct(srcBase) && dst.Distinct(srcExponent) && dst.Distinct(srcModulus)
    modifies dst, dst.words
    ensures ok <==> old(srcModulus.Magnitude()) != 0
    ensures ok ==> dst.Valid() && dst.neg == (old(srcBase.neg) && old(srcExponent.Magnitude()) % 2 == 1)
    ensures ok && old(srcExponent.Magnitude()) == 0 ==> dst.Magnitude() == 1
    ensures ok && old(srcExponent.Magnitude()) > 0 ==>
      dst.Magnitude() == Power(old(srcBase.Magnitude()), old(srcExponent.Magnitude())) % old(srcModulus.Magnitude())
    ensures ok ==>
      (dst.Magnitude() == Power(old(srcBase.Magnitude()), old(srcExponent.Magnitude())) % old(srcModulus.Magnitude())
       <==> !(old(srcExponent.Magnitude()) == 0 && old(srcModulus.Magnitude()) == 1))
  {
    hide Val, Normal, Running, Power;
    ghost var b, e, m, neg := srcBase.Magnitude(), srcExponent.Magnitude(), srcModulus.Magnitude(), srcBase.neg;
    var base, exponent, unused, modulus;
    ok, base, exponent, unused, modulus := Operands(srcBase, srcExponent, srcModulus);
    if !ok { return; }
    RunStart(b, neg, e, unused.Magnitude(), base.Magnitude(), m);
    PowerRun(dst, base, exponent, unused, modulus, b, neg, e, m);
    PowerIsRight(b, e, m);
  }

  /** One for exponent zero is the remainder for every modulus but one. */
  lemma PowerIsRight(b: nat, e: nat, m: nat)
    requires m > 0
    ensures (if e == 0 then 1 else Power(b, e) % m) == Power(b, e) % m <==> !(e == 0 && m == 1)
  {
    if e == 0 && m > 1 { assert 1 % m == 1; }
  }

  /** Modulo one every remainder is zero; the power with exponent zero comes out as one. */
  method ModuloOne(base: BigInt) returns (power: BigInt)
    requires base.Valid()
    ensures fresh(power) && power.Valid() && power.Magnitude() == 1 && Power(base.Magnitude(), 0) % 1 == 0
  {
    hide Val, Normal, Power;
    var exponent := new BigInt();
    var modulus := new BigInt();
    modulus.FromWord(1);
    power := new BigInt();
    var ok := PowMod(power, base, exponent, modulus);
  }

  lemma RunStart(b: nat, neg: bool, e: nat, q: nat, r: nat, m: nat)
    requires b == Times(q, m) + r && m > 0
    ensures Running(1, false, r, neg, e, b, neg, e, m)
  {
    RemainderCongruent(b, q, m, r);
    PowerCongruent(r, b, m, e);
    assert Times(1, Power(r, e)) == Power(r, e);
  }
}
