/** Karatsuba multiplication over one shared scratch array. */
module Karatsuba {
  import opened Words
  import opened Raw

  const THRESHOLD := 20

  /** The words of scratch space that multiplying runs of at most `m` words may touch. */
  function Scratch(m: nat): (n: nat)
    ensures n <= 11 * m + 180
  {
    if m < THRESHOLD then 0 else 11 * m + 180
  }

  /** From `m` to `m'` only the words from `x` to `x + n` changed. */
  predicate Same(m: seq<Word>, m': seq<Word>, x: nat, n: nat) {
    |m| == |m'| && forall k :: 0 <= k < |m| && !(x <= k < x + n) ==> m'[k] == m[k]
  }

  /** Only the words from `x` to `x + n` and from `y` to `y + l` changed. */
  predicate SameTwo(m: seq<Word>, m': seq<Word>, x: nat, n: nat, y: nat, l: nat) {
    |m| == |m'| && forall k :: 0 <= k < |m| && !(x <= k < x + n) && !(y <= k < y + l) ==> m'[k] == m[k]
  }

  lemma Keeps(m: seq<Word>, m': seq<Word>, x: nat, n: nat, p: nat, k: nat)
    requires Same(m, m', x, n) && p + k <= |m| && (p + k <= x || x + n <= p)
    ensures m'[p..p + k] == m[p..p + k]
  {
  }

  lemma SameOn(m: seq<Word>, m': seq<Word>, m'': seq<Word>, x: nat, n: nat, y: nat, l: nat, z: nat, k: nat)
    requires Same(m, m', x, n) && Same(m', m'', y, l) && z <= x && x + n <= z + k && z <= y && y + l <= z + k
    ensures Same(m, m'', z, k)
  {
  }

  lemma Widen(m: seq<Word>, m': seq<Word>, x: nat, n: nat, y: nat, l: nat, z: nat, k: nat)
    requires SameTwo(m, m', x, n, y, l) && z <= x && x + n <= z + k && z <= y && y + l <= z + k
    ensures Same(m, m', z, k)
  {
  }

  /** Low and high half of a run, both normalised: how many words of each count, and where the high
      half starts. A run of at most `m2` words has no high half. */
  method Split(A: array<Word>, p: nat, n: nat, m2: nat) returns (nlo: nat, h: nat, nhi: nat)
    requires p + n <= A.Length
    ensures nlo <= h <= n && h + nhi <= n && h == Min(m2, n) && nhi <= Max(n - m2, 0)
    ensures Halves(A[p..p + n], nlo, h, nhi, m2)
  {
    hide Val, Pow, Halves, Normal;
    nlo := Truncate(A, p, Min(m2, n));
    h := Min(m2, n);
    nhi := Truncate(A, p + h, Max(n - m2, 0));
    Within(A, p, n, 0, nlo);
    Within(A, p, n, 0, h);
    Within(A, p, n, h, h + nhi);
    Within(A, p, n, h, n);
    SplitValue(A[p..p + n], nlo, h, nhi, m2);
  }

  lemma SplitValue(s: seq<Word>, nlo: nat, h: nat, nhi: nat, m2: nat)
    requires nlo <= h == Min(m2, |s|) && h + nhi <= |s|
    requires Val(s[0..nlo]) == Val(s[0..h]) && Val(s[h..h + nhi]) == Val(s[h..|s|])
    ensures Halves(s, nlo, h, nhi, m2)
  {
    hide Val, Pow;
    assert s[0..nlo] == s[..nlo] && s[0..h] == s[..h] && s[h..|s|] == s[h..];
    assert s == s[..h] + s[h..];
    ValAppend(s[..h], s[h..]);
    if |s| < m2 {
      assert s[h..] == [] && s[h..h + nhi] == [];
      NoWords(Pow(m2));
      NoWords(Pow(h));
    }
  }

  /** `s` is its low half plus its high half shifted by `m2` words. */
  predicate Halves(s: seq<Word>, nlo: nat, h: nat, nhi: nat, m2: nat) {
    && nlo <= h && h + nhi <= |s| && nlo <= m2
    && Val(s) == Val(s[..nlo]) + Times(Pow(m2), Val(s[h..h + nhi]))
  }

  lemma NoWords(p: nat)
    ensures Val([]) == 0 && p * Val([]) == 0
  {
  }

  function Times(a: nat, b: nat): nat { a * b }

  /** The normalised run of `n` words at `x` has the value `v`. */
  predicate Holds(m: seq<Word>, x: nat, n: nat, v: nat) {
    x + n <= |m| && Normal(m[x..x + n]) && Val(m[x..x + n]) == v
  }

  lemma StillHolds(m: seq<Word>, m': seq<Word>, p: nat, k: nat, v: nat, x: nat, n: nat)
    requires Holds(m, p, k, v) && Same(m, m', x, n) && (p + k <= x || x + n <= p)
    ensures Holds(m', p, k, v)
  {
    Keeps(m, m', x, n, p, k);
  }


  lemma HighFits(low: seq<Word>, high: seq<Word>, w: seq<Word>, n: nat)
    requires |low| + |high| == n && Normal(w) && Val(low + high) + Times(Pow(|low|), Val(w)) < Pow(n)
    ensures Val(high) + Val(w) < Pow(|high|) && |w| <= |high|
  {
    hide Val, Pow;
    ValAppend(low, high);
    PowAdd(|low|, |high|);
    Cancel(Pow(|low|), Val(low), Val(high), Val(w), Pow(|high|));
    NormalLength(w, |high|);
  }

  lemma Cancel(p: nat, l: nat, h: nat, w: nat, q: nat)
    requires p > 0 && l + p * h + p * w < p * q
    ensures h + w < q
  {
    assert p * (h + w) == p * h + p * w;
    if h + w >= q { MulMono(q, h + w, p); }
  }

  lemma HighAdded(low: seq<Word>, high: seq<Word>, w: seq<Word>, high': seq<Word>)
    requires Val(high') == Val(high) + Val(w)
    ensures Val(low + high') == Val(low + high) + Times(Pow(|low|), Val(w))
  {
    hide Val, Pow;
    ValAppend(low, high);
    ValAppend(low, high');
    Spread(Pow(|low|), Val(high), Val(w), Val(high'));
  }

  lemma Spread(p: int, a: int, b: int, c: int)
    requires c == a + b
    ensures p * c == p * a + p * b
  {
  }

  lemma Identity(lo1: nat, hi1: nat, lo2: nat, hi2: nat, p: nat)
    ensures var z0 := lo1 * lo2;
            var z2 := hi1 * hi2;
            var z1 := (lo1 + hi1) * (lo2 + hi2) - z0 - z2;
            && z1 >= 0
            && (lo1 + p * hi1) * (lo2 + p * hi2) == z0 + p * z1 + p * p * z2
  {
    var x := hi1 * lo2 + lo1 * hi2;
    assert (lo1 + hi1) * (lo2 + hi2) == lo1 * lo2 + hi1 * hi2 + x;
    NonNegative(hi1, lo2);
    NonNegative(lo1, hi2);
    assert (p * hi1) * (p * hi2) == p * p * (hi1 * hi2);
    assert lo1 * (p * hi2) == p * (lo1 * hi2);
    assert (p * hi1) * lo2 == p * (hi1 * lo2);
    assert (lo1 + p * hi1) * (lo2 + p * hi2) == lo1 * lo2 + lo1 * (p * hi2) + (p * hi1) * lo2 + (p * hi1) * (p * hi2);
  }

  /** The sum of the halves needs one word more than a half. */
  lemma SumFits(s: seq<Word>, t: seq<Word>, k: nat)
    requires |s| < k && |t| < k
    ensures Val(s) + Val(t) < Pow(k)
  {
    hide Val;
    ValBound(s);
    ValBound(t);
    PowMonotone(|s|, k - 1);
    PowMonotone(|t|, k - 1);
  }

  /** Adds the two halves of a run. */
  method AddHalves(d: array<Word>, y: nat, A: array<Word>, p: nat, n: nat, nlo: nat, h: nat, nhi: nat, k: nat,
                   ghost s: seq<Word>) returns (r: nat)
    requires p + n <= A.Length && s == A[..][p..p + n] && nlo <= h && h + nhi <= n && nlo < k && nhi < k && y + k <= d.Length
    requires Apart(A, p, n, d, y, k)
    modifies d
    ensures r <= k && Same(old(d[..]), d[..], y, k) && Holds(d[..], y, r, Val(s[..nlo]) + Val(s[h..h + nhi]))
  {
    hide Val, Pow;
    assert A[p..p + nlo] == s[..nlo];
    Within(A, p, n, h, h + nhi);
    assert A[p..p + n] == s;
    SumFits(s[..nlo], s[h..h + nhi], k);
    r := Add(d, y, A, p, nlo, A, p + h, nhi, k);
    assert d[y..y + r] == d[..][y..y + r];
  }

  /** The school method, after clearing the result. */
  method MultiplyShort(d: array<Word>, x: nat, A: array<Word>, p: nat, na: nat, B: array<Word>, q: nat, nb: nat,
                       ghost s: seq<Word>, ghost t: seq<Word>) returns (r: nat)
    requires p + na <= A.Length && q + nb <= B.Length && x + na + nb <= d.Length
    requires s == A[..][p..p + na] && t == B[..][q..q + nb]
    requires Apart(A, p, na, d, x, na + nb) && Apart(B, q, nb, d, x, na + nb)
    modifies d
    ensures r <= na + nb && Same(old(d[..]), d[..], x, na + nb) && Holds(d[..], x, r, Times(Val(s), Val(t)))
  {
    hide Val, Pow;
    Zero(d, x, 0, na + nb);
    assert A[p..p + na] == s && B[q..q + nb] == t;
    r := MulAdd(d, x, A, p, na, B, q, nb);
    assert d[x..x + r] == d[..][x..x + r];
  }

  /** Sums of halves and all the scratch space further down fit into the scratch space of a long run. */
  lemma ScratchSuffices(m: nat)
    requires m >= THRESHOLD
    ensures var k := m / 2 + 2; k < m && m - m / 2 < k && 8 * k + Scratch(k) <= Scratch(m)
  {
  }

  lemma ScratchMonotone(m: nat, n: nat)
    requires m <= n
    ensures Scratch(m) <= Scratch(n)
  {
  }

  /** What it takes to multiply runs of at most `m` words with scratch space at `y`. */
  predicate Workable(d: array<Word>, x: nat, A: array<Word>, p: nat, na: nat, B: array<Word>, q: nat, nb: nat, y: nat) {
    && p + na <= A.Length && q + nb <= B.Length
    && x + na + nb <= y && y + Scratch(Max(na, nb)) <= d.Length
    && Apart(A, p, na, d, x, na + nb) && Apart(A, p, na, d, y, Scratch(Max(na, nb)))
    && Apart(B, q, nb, d, x, na + nb) && Apart(B, q, nb, d, y, Scratch(Max(na, nb)))
  }

  /** `d = a * b`. The scratch words start at `y`; the recursion works on ever shorter runs. */
  method Multiply(d: array<Word>, x: nat, A: array<Word>, p: nat, na: nat, B: array<Word>, q: nat, nb: nat, y: nat,
                  ghost s: seq<Word>, ghost t: seq<Word>) returns (r: nat)
    requires Workable(d, x, A, p, na, B, q, nb, y) && s == A[..][p..p + na] && t == B[..][q..q + nb]
    modifies d
    ensures r <= na + nb && SameTwo(old(d[..]), d[..], x, na + nb, y, Scratch(Max(na, nb)))
    ensures Holds(d[..], x, r, Times(Val(s), Val(t)))
    decreases Max(na, nb), 2, 0
  {
    hide Val, Pow, Holds, Times, SameTwo;
    if na < THRESHOLD && nb < THRESHOLD {
      ghost var m := d[..];
      r := MultiplyShort(d, x, A, p, na, B, q, nb, s, t);
      AlsoTwo(m, d[..], x, na + nb, y, Scratch(Max(na, nb)));
    } else {
      r := MultiplyLong(d, x, A, p, na, B, q, nb, y, s, t);
    }
  }

  lemma AlsoTwo(m: seq<Word>, m': seq<Word>, x: nat, n: nat, y: nat, l: nat)
    requires Same(m, m', x, n)
    ensures SameTwo(m, m', x, n, y, l)
  {
  }

  method MultiplyLong(d: array<Word>, x: nat, A: array<Word>, p: nat, na: nat, B: array<Word>, q: nat, nb: nat, y: nat,
                      ghost s: seq<Word>, ghost t: seq<Word>) returns (r: nat)
    requires Workable(d, x, A, p, na, B, q, nb, y) && s == A[..][p..p + na] && t == B[..][q..q + nb]
    requires Max(na, nb) >= THRESHOLD
    modifies d
    ensures r <= na + nb && SameTwo(old(d[..]), d[..], x, na + nb, y, Scratch(Max(na, nb)))
    ensures Holds(d[..], x, r, Times(Val(s), Val(t)))
    decreases Max(na, nb), 1, 0
  {
    hide Val, Pow, Holds, Same, SameTwo, Times, Scratch;
    ghost var m0, w := d[..], Scratch(Max(na, nb));
    var m2 := Max(na, nb) / 2;
    var k := m2 + 2;
    ScratchSuffices(Max(na, nb));
    assert A[p..p + na] == s && B[q..q + nb] == t;
    var nlo1, h1, nhi1 := Split(A, p, na, m2);
    var nlo2, h2, nhi2 := Split(B, q, nb, m2);
    var n0, n1, n2 := AllProducts(d, A, p, na, nlo1, h1, nhi1, B, q, nb, nlo2, h2, nhi2, y, k, s, t);
    ghost var m1 := d[..];
    TimesBound(s, t);
    r := Finish(d, x, na + nb, m2, y + 2 * k, n0, y + 4 * k, n1, y + 6 * k, n2, Val(s[..nlo1]), Val(s[h1..h1 + nhi1]),
                Val(t[..nlo2]), Val(t[h2..h2 + nhi2]), Val(s), Val(t));
    Together(m0, m1, d[..], x, na + nb, y, 8 * k + Scratch(k), y + 4 * k, n1, w);
  }

  lemma TimesBound(s: seq<Word>, t: seq<Word>)
    ensures Times(Val(s), Val(t)) < Pow(|s| + |t|)
  {
    ProductBound(s, t);
  }

  lemma Together(m: seq<Word>, m': seq<Word>, m'': seq<Word>, x: nat, n: nat, y: nat, k: nat, z: nat, l: nat, w: nat)
    requires Same(m, m', y, k) && SameTwo(m', m'', x, n, z, l) && k <= w && y <= z && z + l <= y + k
    ensures SameTwo(m, m'', x, n, y, w)
  {
  }

  /** The sums of the halves, then the three products. */
  method AllProducts(d: array<Word>, A: array<Word>, p: nat, na: nat, nlo1: nat, h1: nat, nhi1: nat,
                     B: array<Word>, q: nat, nb: nat, nlo2: nat, h2: nat, nhi2: nat, y: nat, k: nat,
                     ghost s: seq<Word>, ghost t: seq<Word>) returns (n0: nat, n1: nat, n2: nat)
    requires p + na <= A.Length && s == A[..][p..p + na] && nlo1 <= h1 && h1 + nhi1 <= na && nlo1 < k && nhi1 < k
    requires q + nb <= B.Length && t == B[..][q..q + nb] && nlo2 <= h2 && h2 + nhi2 <= nb && nlo2 < k && nhi2 < k
    requires y + 8 * k + Scratch(k) <= d.Length
    requires Apart(A, p, na, d, y, 8 * k + Scratch(k)) && Apart(B, q, nb, d, y, 8 * k + Scratch(k))
    modifies d
    ensures n0 <= nlo1 + nlo2 && n1 <= 2 * k && n2 <= 2 * k && Same(old(d[..]), d[..], y, 8 * k + Scratch(k))
    ensures Holds(d[..], y + 2 * k, n0, Times(Val(s[..nlo1]), Val(t[..nlo2])))
    ensures Holds(d[..], y + 4 * k, n1, Times(Val(s[..nlo1]) + Val(s[h1..h1 + nhi1]), Val(t[..nlo2]) + Val(t[h2..h2 + nhi2])))
    ensures Holds(d[..], y + 6 * k, n2, Times(Val(s[h1..h1 + nhi1]), Val(t[h2..h2 + nhi2])))
    decreases k, 6
  {
    hide Val, Pow, Same, Scratch, Times, Holds;
    ghost var m0, a, b, w := d[..], A[..], B[..], 8 * k + Scratch(k);
    var l1, l2 := Sums(d, A, p, na, nlo1, h1, nhi1, B, q, nb, nlo2, h2, nhi2, y, k, s, t);
    ghost var m1 := d[..];
    OperandKept(A, d, p, na, s, m0, a, y, 2 * k);
    OperandKept(B, d, q, nb, t, m0, b, y, 2 * k);
    n0, n1, n2 := Products(d, A, p, na, nlo1, h1, nhi1, B, q, nb, nlo2, h2, nhi2, y, k, l1, l2,
                           y + 2 * k, y + 4 * k, y + 6 * k, y + 8 * k, Scratch(k), s, t,
                           Val(s[..nlo1]) + Val(s[h1..h1 + nhi1]), Val(t[..nlo2]) + Val(t[h2..h2 + nhi2]));
    SameOn(m0, m1, d[..], y, 2 * k, y, w, y, w);
  }

  /** The run of `n` words at `x` has the value `v`, and only its first `used` words are not zero. */
  predicate Filled(m: seq<Word>, x: nat, n: nat, used: nat, v: nat) {
    x + n <= |m| && used <= n && Val(m[x..x + n]) == v && forall k :: x + used <= k < x + n ==> m[k] == 0
  }

  /** `z` with zeros above it. */
  method Place(d: array<Word>, x: nat, n: nat, z: nat, nz: nat, ghost v: nat)
    requires nz <= n && x + n <= z && Holds(d[..], z, nz, v)
    modifies d
    ensures Same(old(d[..]), d[..], x, n) && Filled(d[..], x, n, nz, v)
  {
    hide Val, Pow;
    ghost var w := d[z..z + nz];
    assert w == d[..][z..z + nz];
    Copy(d, x, d, z, nz);
    Zero(d, x, nz, n);
    assert d[..][x..x + n][..nz] == w;
    ValTruncate(d[..][x..x + n], nz);
  }

  /** Adds `z` into `d[x..x + n]` at word `off`. */
  method AddAt(d: array<Word>, x: nat, ghost n: nat, off: nat, used: nat, z: nat, nz: nat, ghost u: nat, ghost v: nat)
    returns (r: nat)
    requires off <= n && x + n <= z && Holds(d[..], z, nz, v) && Filled(d[..], x, n, used, u) && u + Times(Pow(off), v) < Pow(n)
    modifies d
    ensures Same(old(d[..]), d[..], x, n) && Filled(d[..], x, n, off + r, u + Times(Pow(off), v))
  {
    hide Val, Pow;
    ghost var m := d[..];
    ghost var low, high, w := m[x..x + off], m[x + off..x + n], m[z..z + nz];
    assert m[x..x + n] == low + high;
    HighFits(low, high, w, n);
    r := AddHigh(d, x + off, n - off, Max(used - off, 0), z, nz, Val(high), v);
    Keeps(m, d[..], x + off, n - off, x, off);
    assert d[..][x..x + n] == low + d[..][x + off..x + n];
    HighAdded(low, high, w, d[..][x + off..x + n]);
  }

  method AddHigh(d: array<Word>, x: nat, ghost n: nat, used: nat, z: nat, nz: nat, ghost u: nat, ghost v: nat) returns (r: nat)
    requires nz <= n && x + n <= z && Holds(d[..], z, nz, v) && Filled(d[..], x, n, used, u) && u + v < Pow(n)
    modifies d
    ensures Same(old(d[..]), d[..], x, n) && Filled(d[..], x, n, r, u + v)
  {
    hide Val, Pow;
    assert d[z..z + nz] == d[..][z..z + nz];
    assert d[..][x..x + n][..used] == d[x..x + used];
    ValTruncate(d[..][x..x + n], used);
    r := Add(d, x, d, x, used, d, z, nz, n);
    assert d[..][x..x + n][..r] == d[x..x + r];
    ValTruncate(d[..][x..x + n], r);
  }

  /** The middle product becomes the middle term. */
  method MiddleTerm(d: array<Word>, z0: nat, n0: nat, z1: nat, n1: nat, z2: nat, n2: nat, ghost v0: nat, ghost v1: nat, ghost v2: nat)
    returns (r: nat)
    requires z0 + n0 <= z1 && z1 + n1 <= z2 && v0 + v2 <= v1
    requires Holds(d[..], z0, n0, v0) && Holds(d[..], z1, n1, v1) && Holds(d[..], z2, n2, v2)
    modifies d
    ensures r <= n1 && Same(old(d[..]), d[..], z1, n1) && Holds(d[..], z1, r, v1 - v0 - v2)
  {
    hide Val, Pow, Holds, Same;
    ghost var m := d[..];
    r := Reduce(d, z1, n1, z0, n0, v1, v0);
    StillHolds(m, d[..], z2, n2, v2, z1, n1);
    ghost var m', l := d[..], r;
    r := Reduce(d, z1, r, z2, n2, v1 - v0, v2);
    SameOn(m, m', d[..], z1, n1, z1, l, z1, n1);
  }

  /** `d -= z`, in place. */
  method Reduce(d: array<Word>, x: nat, n: nat, z: nat, nz: nat, ghost u: nat, ghost v: nat) returns (r: nat)
    requires (x + n <= z || z + nz <= x) && v <= u && Holds(d[..], x, n, u) && Holds(d[..], z, nz, v)
    modifies d
    ensures r <= n && Same(old(d[..]), d[..], x, n) && Holds(d[..], x, r, u - v)
  {
    hide Val, Pow;
    assert d[x..x + n] == d[..][x..x + n] && d[z..z + nz] == d[..][z..z + nz];
    ValBound(d[x..x + n]);
    NormalLength(d[z..z + nz], n);
    r := Sub(d, x, d, x, n, d, z, nz);
    assert d[..][x..x + r] == d[x..x + r];
  }

  /** Puts the result together from the products of the low halves, the sums and the high halves. */
  method Finish(d: array<Word>, x: nat, n: nat, m2: nat, z0: nat, n0: nat, z1: nat, n1: nat, z2: nat, n2: nat,
                ghost a0: nat, ghost a1: nat, ghost b0: nat, ghost b1: nat, ghost a: nat, ghost b: nat) returns (r: nat)
    requires 2 * m2 <= n && x + n <= z0 && z0 + n0 <= z1 && z1 + n1 <= z2 && n0 <= n
    requires a == a0 + Times(Pow(m2), a1) && b == b0 + Times(Pow(m2), b1) && Times(a, b) < Pow(n)
    requires Holds(d[..], z0, n0, Times(a0, b0)) && Holds(d[..], z2, n2, Times(a1, b1))
    requires Holds(d[..], z1, n1, Times(a0 + a1, b0 + b1))
    modifies d
    ensures r <= n && SameTwo(old(d[..]), d[..], x, n, z1, n1) && Holds(d[..], x, r, Times(a, b))
  {
    hide Val, Pow, Holds, Same, SameTwo, Times;
    ghost var v0, v2 := Times(a0, b0), Times(a1, b1);
    ghost var v1 := KaratsubaSum(a0, a1, b0, b1, a, b, m2);
    ghost var m := d[..];
    r := MiddleTerm(d, z0, n0, z1, n1, z2, n2, v0, Times(a0 + a1, b0 + b1), v2);
    ghost var m' := d[..];
    StillHolds(m, m', z0, n0, v0, z1, n1);
    StillHolds(m, m', z2, n2, v2, z1, n1);
    r := Combine(d, x, n, m2, z0, n0, z1, r, z2, n2, v0, v1, v2);
    TwoChanges(m, m', d[..], x, n, z1, n1);
  }

  lemma TwoChanges(m: seq<Word>, m': seq<Word>, m'': seq<Word>, x: nat, n: nat, y: nat, l: nat)
    requires Same(m, m', y, l) && Same(m', m'', x, n)
    ensures SameTwo(m, m'', x, n, y, l)
  {
  }

  lemma KaratsubaSum(a0: nat, a1: nat, b0: nat, b1: nat, a: nat, b: nat, m2: nat) returns (v1: nat)
    requires a == a0 + Times(Pow(m2), a1) && b == b0 + Times(Pow(m2), b1)
    ensures v1 == Times(a0 + a1, b0 + b1) - Times(a0, b0) - Times(a1, b1)
    ensures Times(a, b) == Times(a0, b0) + Times(Pow(m2), v1) + Times(Pow(2 * m2), Times(a1, b1))
  {
    hide Pow;
    Identity(a0, a1, b0, b1, Pow(m2));
    PowAdd(m2, m2);
    v1 := (a0 + a1) * (b0 + b1) - a0 * b0 - a1 * b1;
  }

  /** `d = z0 + BASE^m2 * z1 + BASE^(2 * m2) * z2` */
  method Combine(d: array<Word>, x: nat, n: nat, m2: nat, z0: nat, n0: nat, z1: nat, n1: nat, z2: nat, n2: nat,
                 ghost v0: nat, ghost v1: nat, ghost v2: nat) returns (r: nat)
    requires 2 * m2 <= n && n0 <= n && x + n <= z0 && x + n <= z1 && x + n <= z2
    requires Holds(d[..], z0, n0, v0) && Holds(d[..], z1, n1, v1) && Holds(d[..], z2, n2, v2)
    requires v0 + Times(Pow(m2), v1) + Times(Pow(2 * m2), v2) < Pow(n)
    modifies d
    ensures r <= n && Same(old(d[..]), d[..], x, n)
    ensures Holds(d[..], x, r, v0 + Times(Pow(m2), v1) + Times(Pow(2 * m2), v2))
  {
    hide Val, Pow, Holds, Same, Times;
    ghost var m := d[..];
    Place(d, x, n, z0, n0, v0);
    ghost var m1 := d[..];
    StillHolds(m, m1, z1, n1, v1, x, n);
    StillHolds(m, m1, z2, n2, v2, x, n);
    r := AddAt(d, x, n, m2, n0, z1, n1, v0, v1);
    ghost var m2' := d[..];
    StillHolds(m1, m2', z2, n2, v2, x, n);
    r := AddAt(d, x, n, 2 * m2, m2 + r, z2, n2, v0 + Times(Pow(m2), v1), v2);
    r := Trim(d, x, n, 2 * m2 + r, v0 + Times(Pow(m2), v1) + Times(Pow(2 * m2), v2));
    SameOn(m, m1, m2', x, n, x, n, x, n);
    SameOn(m, m2', d[..], x, n, x, n, x, n);
  }

  method Trim(d: array<Word>, x: nat, ghost n: nat, used: nat, ghost v: nat) returns (r: nat)
    requires Filled(d[..], x, n, used, v)
    ensures r <= used && Holds(d[..], x, r, v)
  {
    hide Val, Pow;
    r := Truncate(d, x, used);
    assert d[..][x..x + n][..used] == d[x..x + used] && d[..][x..x + r] == d[x..x + r];
    ValTruncate(d[..][x..x + n], used);
  }

  /** One of the three products: a part of `a` times a part of `b`. */
  method Part(d: array<Word>, x: nat, A: array<Word>, p: nat, na: nat, i: nat, n: nat,
              B: array<Word>, q: nat, nb: nat, j: nat, m: nat, y: nat, ghost s: seq<Word>, ghost t: seq<Word>) returns (r: nat)
    requires p + na <= A.Length && q + nb <= B.Length && i + n <= na && j + m <= nb
    requires s == A[..][p..p + na] && t == B[..][q..q + nb] && Workable(d, x, A, p + i, n, B, q + j, m, y)
    modifies d
    ensures r <= n + m && SameTwo(old(d[..]), d[..], x, n + m, y, Scratch(Max(n, m)))
    ensures Holds(d[..], x, r, Times(Val(s[i..i + n]), Val(t[j..j + m])))
    decreases Max(n, m), 2, 1
  {
    hide Val, Pow, Normal, SameTwo, Times, Holds;
    SliceOfSlice(A[..], p, na, i, n);
    SliceOfSlice(B[..], q, nb, j, m);
    r := Multiply(d, x, A, p + i, n, B, q + j, m, y, s[i..i + n], t[j..j + m]);
  }

  lemma SliceOfSlice(m: seq<Word>, p: nat, n: nat, i: nat, k: nat)
    requires p + n <= |m| && i + k <= n
    ensures m[p..p + n][i..i + k] == m[p + i..p + i + k]
  {
    var s, t := m[p..p + n][i..i + k], m[p + i..p + i + k];
    assert |s| == |t| && forall j :: 0 <= j < |s| ==> s[j] == t[j];
  }

  /** An operand outside the changed words is as before, wherever it lives. */
  lemma OperandKept(A: array<Word>, d: array<Word>, p: nat, n: nat, s: seq<Word>, m: seq<Word>, a: seq<Word>, x: nat, l: nat)
    requires p + n <= |a| == A.Length && s == a[p..p + n] && Apart(A, p, n, d, x, l)
    requires Same(m, d[..], x, l) && (if A == d then a == m else A[..] == a)
    ensures s == A[..][p..p + n]
  {
    if A == d { Keeps(m, d[..], x, l, p, n); }
  }

  /** The sums of the halves side by side at `y`. */
  method Sums(d: array<Word>, A: array<Word>, p: nat, na: nat, nlo1: nat, h1: nat, nhi1: nat,
              B: array<Word>, q: nat, nb: nat, nlo2: nat, h2: nat, nhi2: nat, y: nat, k: nat,
              ghost s: seq<Word>, ghost t: seq<Word>) returns (n1: nat, n2: nat)
    requires p + na <= A.Length && s == A[..][p..p + na] && nlo1 <= h1 && h1 + nhi1 <= na && nlo1 < k && nhi1 < k
    requires q + nb <= B.Length && t == B[..][q..q + nb] && nlo2 <= h2 && h2 + nhi2 <= nb && nlo2 < k && nhi2 < k
    requires y + 2 * k <= d.Length && Apart(A, p, na, d, y, 2 * k) && Apart(B, q, nb, d, y, 2 * k)
    modifies d
    ensures n1 <= k && n2 <= k && Same(old(d[..]), d[..], y, 2 * k)
    ensures Holds(d[..], y, n1, Val(s[..nlo1]) + Val(s[h1..h1 + nhi1]))
    ensures Holds(d[..], y + k, n2, Val(t[..nlo2]) + Val(t[h2..h2 + nhi2]))
  {
    hide Val, Pow, Same, Holds;
    ghost var m0, b := d[..], B[..];
    n1 := AddHalves(d, y, A, p, na, nlo1, h1, nhi1, k, s);
    ghost var m1 := d[..];
    OperandKept(B, d, q, nb, t, m0, b, y, k);
    n2 := AddHalves(d, y + k, B, q, nb, nlo2, h2, nhi2, k, t);
    StillHolds(m1, d[..], y, n1, Val(s[..nlo1]) + Val(s[h1..h1 + nhi1]), y + k, k);
    SameOn(m0, m1, d[..], y, k, y + k, k, y, 2 * k);
  }

  /** The three products, at `z0`, `z1` and `z2`, from the sums at `y` and `y + k`. Below `z` are the
      sums and products, from there on the scratch space of the recursion. */
  method Products(d: array<Word>, A: array<Word>, p: nat, na: nat, nlo1: nat, h1: nat, nhi1: nat,
                  B: array<Word>, q: nat, nb: nat, nlo2: nat, h2: nat, nhi2: nat, y: nat, k: nat, n1: nat, n2: nat,
                  z0: nat, z1: nat, z2: nat, z: nat, l: nat,
                  ghost s: seq<Word>, ghost t: seq<Word>, ghost v1: nat, ghost v2: nat)
    returns (nz0: nat, nz1: nat, nz2: nat)
    requires z0 == y + 2 * k && z1 == z0 + 2 * k && z2 == z1 + 2 * k && z == z2 + 2 * k && l == Scratch(k) && z + l <= d.Length
    requires p + na <= A.Length && s == A[..][p..p + na] && nlo1 <= h1 && h1 + nhi1 <= na && nlo1 <= k && nhi1 <= k && n1 <= k
    requires q + nb <= B.Length && t == B[..][q..q + nb] && nlo2 <= h2 && h2 + nhi2 <= nb && nlo2 <= k && nhi2 <= k && n2 <= k
    requires Apart(A, p, na, d, y, z - y + l) && Apart(B, q, nb, d, y, z - y + l)
    requires Holds(d[..], y, n1, v1) && Holds(d[..], y + k, n2, v2)
    modifies d
    ensures nz0 <= nlo1 + nlo2 && nz1 <= 2 * k && nz2 <= 2 * k && Same(old(d[..]), d[..], y, z - y + l)
    ensures Holds(d[..], z0, nz0, Times(Val(s[0..nlo1]), Val(t[0..nlo2]))) && Holds(d[..], z1, nz1, Times(v1, v2))
    ensures Holds(d[..], z2, nz2, Times(Val(s[h1..h1 + nhi1]), Val(t[h2..h2 + nhi2])))
    decreases k, 5
  {
    hide Val, Pow, Same, SameTwo, Scratch, Times, Holds;
    ghost var m0, a, b := d[..], A[..], B[..];
    nz0 := Corner(d, A, p, na, 0, nlo1, B, q, nb, 0, nlo2, k, z0, z, l, s, t);
    ghost var m1 := d[..];
    StillHolds(m0, m1, y, n1, v1, z0, z - z0 + l);
    StillHolds(m0, m1, y + k, n2, v2, z0, z - z0 + l);
    OperandKept(A, d, p, na, s, m0, a, z0, z - z0 + l);
    OperandKept(B, d, q, nb, t, m0, b, z0, z - z0 + l);
    nz1, nz2 := MiddleAndHigh(d, A, p, na, h1, nhi1, B, q, nb, h2, nhi2, y, k, n1, n2, z1, z2, z, l, s, t, v1, v2);
    StillHolds(m1, d[..], z0, nz0, Times(Val(s[0..nlo1]), Val(t[0..nlo2])), z1, z - z1 + l);
    SameOn(m0, m1, d[..], z0, z - z0 + l, z1, z - z1 + l, y, z - y + l);
  }

  /** The product of two low or two high halves. */
  method Corner(d: array<Word>, A: array<Word>, p: nat, na: nat, h1: nat, n1: nat,
                B: array<Word>, q: nat, nb: nat, h2: nat, n2: nat, k: nat, x: nat, z: nat, l: nat,
                ghost s: seq<Word>, ghost t: seq<Word>) returns (r: nat)
    requires p + na <= A.Length && s == A[..][p..p + na] && h1 + n1 <= na && n1 <= k
    requires q + nb <= B.Length && t == B[..][q..q + nb] && h2 + n2 <= nb && n2 <= k
    requires x + 2 * k <= z && l == Scratch(k) && z + l <= d.Length
    requires Apart(A, p, na, d, x, z - x + l) && Apart(B, q, nb, d, x, z - x + l)
    modifies d
    ensures r <= n1 + n2 && Same(old(d[..]), d[..], x, z - x + l)
    ensures Holds(d[..], x, r, Times(Val(s[h1..h1 + n1]), Val(t[h2..h2 + n2])))
    decreases k, 3
  {
    hide Val, Pow, Same, SameTwo, Scratch, Times, Holds;
    ghost var m := d[..];
    ScratchMonotone(Max(n1, n2), k);
    r := Part(d, x, A, p, na, h1, n1, B, q, nb, h2, n2, z, s, t);
    Widen(m, d[..], x, n1 + n2, z, Scratch(Max(n1, n2)), x, z - x + l);
  }

  method MiddleAndHigh(d: array<Word>, A: array<Word>, p: nat, na: nat, h1: nat, nhi1: nat,
                       B: array<Word>, q: nat, nb: nat, h2: nat, nhi2: nat, y: nat, k: nat, n1: nat, n2: nat,
                       z1: nat, z2: nat, z: nat, l: nat,
                       ghost s: seq<Word>, ghost t: seq<Word>, ghost v1: nat, ghost v2: nat) returns (nz1: nat, nz2: nat)
    requires z1 == y + 4 * k && z2 == z1 + 2 * k && z == z2 + 2 * k && l == Scratch(k) && z + l <= d.Length
    requires p + na <= A.Length && s == A[..][p..p + na] && h1 + nhi1 <= na && nhi1 <= k && n1 <= k
    requires q + nb <= B.Length && t == B[..][q..q + nb] && h2 + nhi2 <= nb && nhi2 <= k && n2 <= k
    requires Apart(A, p, na, d, y, z - y + l) && Apart(B, q, nb, d, y, z - y + l)
    requires Holds(d[..], y, n1, v1) && Holds(d[..], y + k, n2, v2)
    modifies d
    ensures nz1 <= 2 * k && nz2 <= 2 * k && Same(old(d[..]), d[..], z1, z - z1 + l)
    ensures Holds(d[..], z1, nz1, Times(v1, v2))
    ensures Holds(d[..], z2, nz2, Times(Val(s[h1..h1 + nhi1]), Val(t[h2..h2 + nhi2])))
    decreases k, 4
  {
    hide Val, Pow, Same, SameTwo, Scratch, Times, Holds;
    ghost var m0, a, b := d[..], A[..], B[..];
    nz1 := SumProduct(d, y, k, n1, n2, z1, z, l, v1, v2);
    ghost var m1 := d[..];
    OperandKept(A, d, p, na, s, m0, a, z1, z - z1 + l);
    OperandKept(B, d, q, nb, t, m0, b, z1, z - z1 + l);
    nz2 := Corner(d, A, p, na, h1, nhi1, B, q, nb, h2, nhi2, k, z2, z, l, s, t);
    StillHolds(m1, d[..], z1, nz1, Times(v1, v2), z2, z - z2 + l);
    SameOn(m0, m1, d[..], z1, z - z1 + l, z2, z - z2 + l, z1, z - z1 + l);
  }

  /** The product of the two sums. */
  method SumProduct(d: array<Word>, y: nat, k: nat, n1: nat, n2: nat, z1: nat, z: nat, l: nat, ghost v1: nat, ghost v2: nat)
    returns (nz1: nat)
    requires z1 >= y + 2 * k && z == z1 + 4 * k && l == Scratch(k) && z + l <= d.Length && n1 <= k && n2 <= k
    requires Holds(d[..], y, n1, v1) && Holds(d[..], y + k, n2, v2)
    modifies d
    ensures nz1 <= 2 * k && Same(old(d[..]), d[..], z1, z - z1 + l) && Holds(d[..], z1, nz1, Times(v1, v2))
    decreases k, 3
  {
    hide Val, Pow, Same, SameTwo, Scratch, Times, Normal;
    ghost var m0 := d[..];
    ScratchMonotone(Max(n1, n2), k);
    nz1 := Multiply(d, z1, d, y, n1, d, y + k, n2, z, m0[y..y + n1], m0[y + k..y + k + n2]);
    Widen(m0, d[..], z1, n1 + n2, z, Scratch(Max(n1, n2)), z1, z - z1 + l);
  }
}
