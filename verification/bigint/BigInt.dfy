/** Signed integers over growable arrays of words. */
module BigInt {
  import opened Words
  import opened Raw
  import opened Karatsuba
  import opened Bits
  import Shifts
  import BitLevel
  import HalfWord

  class BigInt {
    var words: array<Word>
    var size: nat
    var neg: bool

    /** The used words are in normal form. Zero may carry either sign. */
    ghost predicate Valid()
      reads this`size, this`words, words
    {
      size <= words.Length && Normal(words[..size])
    }

    ghost function Magnitude(): nat
      requires Valid()
      reads this`size, this`words, words
    {
      Val(words[..size])
    }

    ghost function Value(): int
      requires Valid()
      reads this, words
    {
      Signed(neg, Magnitude())
    }

    constructor ()
      ensures Valid() && Value() == 0 && !neg && fresh(words)
    {
      words := new Word[0];
      size, neg := 0, false;
    }

    /** Two variables either are the same number object or have separate words. */
    predicate Distinct(other: BigInt)
      reads this`words, other`words
    {
      this == other || words != other.words
    }

    /** At least `capacity` words; growing may move them. */
    method Reserve(capacity: nat)
      requires size <= words.Length
      modifies this`words
      ensures words.Length >= capacity && (words == old(words) || fresh(words))
      ensures size <= words.Length && words[..size] == old(words[..size])
      ensures words.Length >= old(words.Length) && (old(words.Length) >= capacity ==> words == old(words))
    {
      if words.Length >= capacity { return; }
      var grown := new Word[capacity];
      Copy(grown, 0, words, 0, size);
      assert grown[0..size] == grown[..size] && words[0..size] == words[..size];
      words := grown;
    }

    /** `this = a * b`; `this` may be `a`, `b` or both. */
    method Mul(a: BigInt, b: BigInt)
      requires a.Valid() && b.Valid() && size <= words.Length && Distinct(a) && Distinct(b) && a.Distinct(b)
      modifies this, words
      ensures Valid() && (words == old(words) || fresh(words))
      ensures Magnitude() == Times(old(a.Magnitude()), old(b.Magnitude())) && neg == (old(a.neg) != old(b.neg))
    {
      hide Val, Pow, Times;
      var na, nb := a.size, b.size;
      var sign := a.neg != b.neg;
      ghost var s, t := a.words[..na], b.words[..nb];
      Reserve(na + nb);
      assert a.words[..na] == s && b.words[..nb] == t;
      if this != a && this != b && na < THRESHOLD && nb < THRESHOLD {
        StoreShort(a.words, na, b.words, nb, s, t);
      } else {
        StoreLong(a.words, na, b.words, nb, s, t);
      }
      neg := sign;
    }

    /** `this = a - b`, as signed numbers. */
    method Sub(a: BigInt, b: BigInt)
      requires Valid() && a.Valid() && b.Valid() && Distinct(a) && Distinct(b) && a.Distinct(b)
      modifies this, words
      ensures Valid() && (words == old(words) || fresh(words))
      ensures Value() == old(a.Value()) - old(b.Value())
    {
      AddSigned(a, a.neg, b, !b.neg);
    }

    method CompareAbs(other: BigInt) returns (c: int)
      requires Valid() && other.Valid()
      ensures c == Sign(Magnitude() - other.Magnitude())
    {
      c := Compare(words, size, other.words, other.size, words[..size], other.words[..other.size]);
    }

    method BitLength() returns (n: nat)
      requires Valid()
      ensures BitLevel.HasBits(Magnitude(), n)
    {
      n := BitLevel.BitLength(words, size);
    }

    method TrailingZeros() returns (n: nat)
      requires Valid()
      ensures size > 0 ==> n / 32 < size && Magnitude() % Pow2(n) == 0 && BitLevel.Bit(Magnitude(), n) == 1
      ensures size == 0 ==> n == 0
    {
      n := BitLevel.TrailingZeros(words, size);
    }

    /** `this = src` */
    method CopyFrom(src: BigInt)
      requires Valid() && src.Valid() && Distinct(src)
      modifies this, words
      ensures Valid() && Magnitude() == old(src.Magnitude()) && neg == old(src.neg)
      ensures words == old(words) || fresh(words)
    {
      if src == this { return; }
      Reserve(src.size);
      Copy(words, 0, src.words, 0, src.size);
      assert words[0..src.size] == words[..src.size] && src.words[0..src.size] == src.words[..src.size];
      size, neg := src.size, src.neg;
    }

    method FromWord(a: Word)
      requires Valid()
      modifies this, words
      ensures Valid() && Magnitude() == a && !neg && (words == old(words) || fresh(words))
    {
      Reserve(1);
      words[0] := a;
      BitLevel.OneWord(a);
      assert words[..1] == [a];
      size := Shifts.TruncateAll(words, 1);
      neg := false;
    }

    method ShiftLeft(src: BigInt, shift: nat)
      requires Valid() && src.Valid() && Distinct(src)
      modifies this, words
      ensures Valid() && Magnitude() == Times(old(src.Magnitude()), Pow2(shift)) && neg == old(src.neg)
      ensures words == old(words) || fresh(words)
    {
      hide Val, Pow, Pow2;
      ghost var s := src.words[..src.size];
      var sign := src.neg;
      Reserve(src.size + shift / WORD_BITS + if shift % WORD_BITS != 0 then 1 else 0);
      size := Shifts.ShiftLeft(words, src.words, src.size, shift, s);
      neg := sign;
    }

    /** Shifting out whole words and bits; see `Shifts.ShiftRight` for what happens when no word remains. */
    method ShiftRight(src: BigInt, shift: nat)
      requires Valid() && src.Valid() && Distinct(src)
      requires Shifts.Regular(shift, src.size) || (shift / WORD_BITS < src.words.Length && 0 < words.Length)
      modifies this, words
      ensures Valid() && neg == old(src.neg)
      ensures Shifts.Regular(shift, old(src.size)) ==> Magnitude() == old(src.Magnitude()) / Pow2(shift)
      ensures !Shifts.Regular(shift, old(src.size)) ==>
        Magnitude() == old(src.words[shift / WORD_BITS]) / Pow2(shift % WORD_BITS)
      ensures if old(words.Length) < old(src.size) then fresh(words) else words == old(words)
      ensures words == old(words) ==>
        forall k :: Shifts.Written(shift, old(src.size)) <= k < words.Length ==> words[k] == old(words[k])
    {
      hide Val, Pow, Pow2;
      ghost var s := src.words[..src.size];
      var sign := src.neg;
      Reserve(src.size);
      size := Shifts.ShiftRight(words, src.words, src.size, shift, s);
      neg := sign;
    }

    /** Sets one bit, with zero words below it if the number is shorter. */
    method SetBit(bit: nat)
      requires Valid()
      modifies this, words
      ensures Valid() && neg == old(neg) && (words == old(words) || fresh(words))
      ensures Magnitude() == old(Magnitude()) + if BitLevel.Bit(old(Magnitude()), bit) == 1 then 0 else Pow2(bit)
    {
      hide Val, Pow, Pow2;
      var n := bit / WORD_BITS + 1;
      ghost var s := words[..size];
      Reserve(n);
      Zero(words, 0, size, n);
      var longer := Max(size, n);
      assert words[..longer][..size] == s;
      ValTruncate(words[..longer], size);
      BitLevel.SetBit(words, longer, bit);
      size := longer;
    }

    /** `this /= denominator`, for a denominator below half a word. */
    method DivModHalfWord(denominator: Word) returns (remainder: Word)
      requires Valid() && 0 < denominator < HALF
      modifies this`size, words
      ensures Valid() && remainder < denominator && old(Magnitude()) == Magnitude() * denominator + remainder
    {
      hide Val, Pow;
      size, remainder := HalfWord.DivMod(words, size, denominator, words[..size]);
    }

    /** `this = a + b` with the given signs; `this` may be `a`, `b` or both. Magnitudes are added for
        equal signs; otherwise the smaller one is subtracted from the larger. */
    method AddSigned(a: BigInt, aNeg: bool, b: BigInt, bNeg: bool)
      requires Valid() && a.Valid() && b.Valid() && Distinct(a) && Distinct(b) && a.Distinct(b)
      modifies this, words
      ensures Valid() && (words == old(words) || fresh(words))
      ensures Value() == Signed(aNeg, old(a.Magnitude())) + Signed(bNeg, old(b.Magnitude()))
    {
      hide Val, Pow;
      var na, nb := a.size, b.size;
      ghost var s, t := a.words[..na], b.words[..nb];
      Reserve(Max(na, nb) + 1);
      assert a.words[..na] == s && b.words[..nb] == t;
      if aNeg == bNeg {
        if na >= nb { StoreSum(a.words, na, b.words, nb, s, t); }
        else { StoreSum(b.words, nb, a.words, na, t, s); }
        neg := aNeg;
      } else {
        var c := Compare(a.words, na, b.words, nb, s, t);
        if c >= 0 {
          StoreDifference(a.words, na, b.words, nb, s, t);
          neg := aNeg;
        } else {
          StoreDifference(b.words, nb, a.words, na, t, s);
          neg := bNeg;
        }
      }
    }

    method StoreSum(A: array<Word>, na: nat, B: array<Word>, nb: nat, ghost s: seq<Word>, ghost t: seq<Word>)
      requires nb <= na <= A.Length && nb <= B.Length && s == A[..na] && t == B[..nb] && na + 1 <= words.Length
      modifies this`size, words
      ensures Valid() && Magnitude() == Val(s) + Val(t)
    {
      hide Val, Pow;
      assert A[0..na] == s && B[0..nb] == t;
      SumFits(s, t, na + 1);
      size := Add(words, 0, A, 0, na, B, 0, nb, na + 1);
      assert words[0..size] == words[..size];
    }

    method StoreDifference(A: array<Word>, na: nat, B: array<Word>, nb: nat, ghost s: seq<Word>, ghost t: seq<Word>)
      requires na <= A.Length && nb <= B.Length && s == A[..na] && t == B[..nb] && na <= words.Length
      requires Val(s) >= Val(t) && Normal(t)
      modifies this`size, words
      ensures Valid() && Magnitude() == Val(s) - Val(t)
    {
      hide Val, Pow;
      ValBound(s);
      NormalLength(t, na);
      assert A[0..na] == s && B[0..nb] == t;
      size := Raw.Sub(words, 0, A, 0, na, B, 0, nb);
      assert words[0..size] == words[..size];
    }

    /** The school method, straight into the result. */
    method StoreShort(A: array<Word>, na: nat, B: array<Word>, nb: nat, ghost s: seq<Word>, ghost t: seq<Word>)
      requires na <= A.Length && nb <= B.Length && s == A[..na] && t == B[..nb] && na + nb <= words.Length
      requires A != words && B != words
      modifies this`size, words
      ensures Valid() && Magnitude() == Times(Val(s), Val(t))
    {
      hide Val, Pow, Times;
      assert s == A[..][0..na] && t == B[..][0..nb];
      size := MultiplyShort(words, 0, A, 0, na, B, 0, nb, s, t);
      assert words[..][0..size] == words[..size];
    }

    method StoreLong(A: array<Word>, na: nat, B: array<Word>, nb: nat, ghost s: seq<Word>, ghost t: seq<Word>)
      requires na <= A.Length && nb <= B.Length && s == A[..na] && t == B[..nb] && na + nb <= words.Length
      modifies this`size, words
      ensures Valid() && Magnitude() == Times(Val(s), Val(t))
    {
      hide Val, Pow, Times;
      var tmp, r := Product(A, na, B, nb, s, t);
      Copy(words, 0, tmp, 0, r);
      assert words[0..r] == words[..r] && tmp[0..r] == tmp[..r];
      size := r;
    }
  }

  function Signed(neg: bool, magnitude: nat): int {
    if neg then -(magnitude as int) else magnitude
  }

  method Compare(A: array<Word>, na: nat, B: array<Word>, nb: nat, ghost s: seq<Word>, ghost t: seq<Word>) returns (c: int)
    requires na <= A.Length && nb <= B.Length && s == A[..na] && t == B[..nb] && Normal(s) && Normal(t)
    ensures c == Sign(Val(s) - Val(t))
  {
    assert A[0..na] == s && B[0..nb] == t;
    c := Raw.CompareAbs(A, 0, na, B, 0, nb);
  }

  /** The product in scratch space of the size the original allocates. */
  method Product(A: array<Word>, na: nat, B: array<Word>, nb: nat, ghost s: seq<Word>, ghost t: seq<Word>)
    returns (tmp: array<Word>, r: nat)
    requires na <= A.Length && nb <= B.Length && s == A[..na] && t == B[..nb]
    ensures fresh(tmp) && r <= na + nb <= tmp.Length && Normal(tmp[..r]) && Val(tmp[..r]) == Times(Val(s), Val(t))
  {
    hide Val, Pow, Times;
    var n := na + nb;
    tmp := new Word[Max(na, nb) * 11 + 180 + n];
    assert s == A[..][0..na] && t == B[..][0..nb];
    r := Multiply(tmp, 0, A, 0, na, B, 0, nb, n, s, t);
    assert tmp[..][0..r] == tmp[..r];
  }

  /** 2 * 2^32 shifted in place by 32 is 2, with another 2 left behind it; that shifted by 33 is 1. The number shifted by 65
      is 0. */
  method StrayRun() returns (x: BigInt)
    ensures fresh(x) && x.Valid() && x.Magnitude() == 1 && 2 * Pow2(32) / Pow2(65) == 0
  {
    hide Val, Pow, Pow2, Normal;
    x := new BigInt();
    x.FromWord(2);
    x.ShiftLeft(x, 32);
    Shifts.StrayExample();
    IsTwoWords(x.words[..x.size]);
    x.ShiftRight(x, 32);
    IsTwo(x.words[..x.size]);
    assert x.words[1] == 2;
    x.ShiftRight(x, 33);
  }

  lemma IsTwoWords(s: seq<Word>)
    requires Normal(s) && Val(s) == Times(2, Pow2(32))
    ensures s == [0, 2]
  {
    Shifts.StrayExample();
    NormalUnique(s, [0, 2]);
  }

  lemma IsTwo(s: seq<Word>)
    requires Normal(s) && Val(s) == 2
    ensures s == [2]
  {
    Shifts.StrayExample();
    NormalUnique(s, [2]);
  }
}
