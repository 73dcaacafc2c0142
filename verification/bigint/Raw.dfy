/** Arithmetic on runs of words inside arrays. A run is an array, an offset and a length; the result
    may overlap an operand only where a method says so. */
module Raw {
  import opened Words

  /** Only `d[x..x + n]` may have changed. */
  twostate predicate OnlyIn(d: array<Word>, x: nat, n: nat)
    reads d
  {
    forall k :: 0 <= k < d.Length && !(x <= k < x + n) ==> d[k] == old(d[k])
  }

  /** `A[p..p + n]` and `d[x..x + m]` share no word. */
  predicate Apart(A: array<Word>, p: nat, n: nat, d: array<Word>, x: nat, m: nat) {
    A != d || p + n <= x || x + m <= p
  }

  function Min(a: int, b: int): int { if a < b then a else b }

  function Max(a: int, b: int): int { if a > b then a else b }

  method Truncate(d: array<Word>, x: nat, n: nat) returns (r: nat)
    requires x + n <= d.Length
    ensures r <= n && Normal(d[x..x + r]) && Val(d[x..x + r]) == Val(d[x..x + n])
    ensures forall k :: x + r <= k < x + n ==> d[k] == 0
  {
    r := n;
    while r > 0 && d[x + r - 1] == 0
      invariant r <= n && forall k :: x + r <= k < x + n ==> d[k] == 0
    {
      r := r - 1;
    }
    assert d[x..x + n][..r] == d[x..x + r];
    ValTruncate(d[x..x + n], r);
  }

  function Sign(v: int): int {
    if v < 0 then -1 else if v > 0 then 1 else 0
  }

  /** Longer means larger, because the runs are normalised. */
  method CompareAbs(A: array<Word>, p: nat, na: nat, B: array<Word>, q: nat, nb: nat) returns (c: int)
    requires p + na <= A.Length && q + nb <= B.Length
    requires Normal(A[p..p + na]) && Normal(B[q..q + nb])
    ensures c == Sign(Val(A[p..p + na]) - Val(B[q..q + nb]))
  {
    ghost var s, t := A[p..p + na], B[q..q + nb];
    if na > nb {
      ValBound(t);
      if Val(s) < Pow(nb) { NormalLength(s, nb); }
      return 1;
    }
    if na < nb {
      ValBound(s);
      if Val(t) < Pow(na) { NormalLength(t, na); }
      return -1;
    }
    var i := na;
    while i > 0
      invariant 0 <= i <= na && forall k :: i <= k < na ==> s[k] == t[k]
    {
      i := i - 1;
      if A[p + i] < B[q + i] {
        CompareFrom(s, t, i);
        return -1;
      }
      if A[p + i] > B[q + i] {
        CompareFrom(t, s, i);
        return 1;
      }
    }
    assert s == t;
    return 0;
  }

  method Zero(d: array<Word>, x: nat, from: nat, to: nat)
    requires x + from <= d.Length && x + to <= d.Length
    modifies d
    ensures OnlyIn(d, x + from, if from < to then to - from else 0)
    ensures forall k :: x + from <= k < x + to ==> d[k] == 0
  {
    if from >= to { return; }
    for i := from to to
      invariant forall k :: x + from <= k < x + i ==> d[k] == 0
      invariant forall k :: 0 <= k < d.Length && !(x + from <= k < x + to) ==> d[k] == old(d[k])
    {
      d[x + i] := 0;
    }
  }

  method Copy(d: array<Word>, x: nat, A: array<Word>, p: nat, n: nat)
    requires x + n <= d.Length && p + n <= A.Length && Apart(A, p, n, d, x, n)
    modifies d
    ensures OnlyIn(d, x, n) && d[x..x + n] == old(A[p..p + n])
  {
    ghost var s := A[p..p + n];
    for i := 0 to n
      invariant OnlyIn(d, x, i) && d[x..x + i] == s[..i]
    {
      assert A[p + i] == s[i];
      d[x + i] := A[p + i];
      assert s[..i + 1] == s[..i] + [s[i]];
    }
    assert s[..n] == s;
  }

  lemma Within(d: array<Word>, x: nat, n: nat, i: nat, j: nat)
    requires x + n <= d.Length && i <= j <= n
    ensures d[x..x + n][i..j] == d[x + i..x + j]
  {
    var s, t := d[x..x + n][i..j], d[x + i..x + j];
    assert |s| == |t|;
    assert forall k :: 0 <= k < |s| ==> s[k] == t[k];
  }

  /** Extends the run `d[x..x + i]` by one word. */
  method Put(d: array<Word>, x: nat, i: nat, w: Word)
    requires x + i < d.Length
    modifies d
    ensures OnlyIn(d, x + i, 1) && d[x..x + i + 1] == old(d[x..x + i]) + [w]
  {
    d[x + i] := w;
  }

  // ---- addition and subtraction ----

  /** One more word of a sum. */
  lemma AddStep(s: seq<Word>, w: Word, c: nat, c': nat, va: nat, a: nat, vb: nat, b: nat)
    requires Val(s) + c * Pow(|s|) == va + vb && w + BASE * c' == a + b + c
    ensures Val(s + [w]) + c' * Pow(|s| + 1) == (va + a * Pow(|s|)) + (vb + b * Pow(|s|))
  {
    ValPush(s, w);
    Distribute(w, c', a, b, c, Pow(|s|));
  }

  lemma Distribute(w: int, c': int, a: int, b: int, c: int, p: int)
    requires w + BASE * c' == a + b + c
    ensures w * p + c' * (BASE * p) == a * p + b * p + c * p
  {
    assert (w + BASE * c') * p == w * p + c' * (BASE * p);
    assert (a + b + c) * p == a * p + b * p + c * p;
  }

  lemma ValStep(s: seq<Word>, i: nat)
    requires i < |s|
    ensures Val(s[..i + 1]) == Val(s[..i]) + s[i] * Pow(i)
  {
    assert s[..i + 1] == s[..i] + [s[i]];
    ValPush(s[..i], s[i]);
  }

  /** `A[p..p + n]` may be read while `d[x..x + m]` is written from the bottom up. */
  predicate Readable(A: array<Word>, p: nat, n: nat, d: array<Word>, x: nat, m: nat) {
    (A == d && p == x) || Apart(A, p, n, d, x, m)
  }

  /** `d = a + b`, where `d` may start exactly where an operand starts. `room` bounds the sum. */
  method Add(d: array<Word>, x: nat, A: array<Word>, p: nat, na: nat, B: array<Word>, q: nat, nb: nat, ghost room: nat)
    returns (r: nat)
    requires p + na <= A.Length && q + nb <= B.Length && Max(na, nb) <= room && x + room <= d.Length
    requires Readable(A, p, na, d, x, room) && Readable(B, q, nb, d, x, room)
    requires Val(A[p..p + na]) + Val(B[q..q + nb]) < Pow(room)
    modifies d
    ensures r <= room && Normal(d[x..x + r]) && OnlyIn(d, x, room)
    ensures Val(d[x..x + r]) == old(Val(A[p..p + na]) + Val(B[q..q + nb]))
    ensures forall k :: x + r <= k < x + Max(na, nb) ==> d[k] == 0
    ensures forall k :: x + Max(r, Max(na, nb)) <= k < x + room ==> d[k] == old(d[k])
  {
    hide Val, Pow;
    ghost var sum := Val(A[p..p + na]) + Val(B[q..q + nb]);
    var i, carry := AddWords(d, x, A, p, na, B, q, nb);
    if carry != 0 {
      CarryFits(d[x..x + i], sum, room);
      PutTop(d, x, i, carry);
      i := i + 1;
    }
    r := Truncate(d, x, i);
  }

  /** One more word on top of a run. */
  method PutTop(d: array<Word>, x: nat, n: nat, w: Word)
    requires x + n < d.Length
    modifies d
    ensures OnlyIn(d, x + n, 1) && d[x + n] == w
    ensures Val(d[x..x + n + 1]) == old(Val(d[x..x + n])) + w * Pow(n)
  {
    ghost var done := d[x..x + n];
    d[x + n] := w;
    assert d[x..x + n + 1] == done + [w];
    ValPush(done, w);
  }

  method AddWords(d: array<Word>, x: nat, A: array<Word>, p: nat, na: nat, B: array<Word>, q: nat, nb: nat)
    returns (i: nat, carry: Word)
    requires p + na <= A.Length && q + nb <= B.Length && x + Max(na, nb) <= d.Length
    requires Readable(A, p, na, d, x, Max(na, nb)) && Readable(B, q, nb, d, x, Max(na, nb))
    modifies d
    ensures i == Max(na, nb) && carry <= 1 && OnlyIn(d, x, i)
    ensures Val(d[x..x + i]) + carry * Pow(i) == old(Val(A[p..p + na]) + Val(B[q..q + nb]))
  {
    hide Val, Pow;
    ghost var s, t := A[p..p + na], B[q..q + nb];
    i := Min(na, nb);
    carry := AddBoth(d, x, A, p, B, q, i, s, t);
    if i < na {
      assert t[..i] == t;
      carry := AddRest(d, x, A, p, i, na, carry, s, Val(t));
      i := na;
    } else {
      assert s[..i] == s;
    }
    if i < nb {
      carry := AddRest(d, x, B, q, i, nb, carry, t, Val(s));
      i := nb;
    } else if i == nb {
      assert t[..i] == t;
    }
  }

  lemma CarryFits(s: seq<Word>, v: nat, room: nat)
    requires Val(s) + Pow(|s|) == v < Pow(room)
    ensures |s| < room
  {
    if room <= |s| { PowMonotone(room, |s|); }
  }

  method AddBoth(d: array<Word>, x: nat, A: array<Word>, p: nat, B: array<Word>, q: nat, n: nat, ghost s: seq<Word>, ghost t: seq<Word>)
    returns (carry: Word)
    requires p + |s| <= A.Length && q + |t| <= B.Length && x + n <= d.Length && n <= |s| && n <= |t|
    requires Readable(A, p, n, d, x, n) && Readable(B, q, n, d, x, n) && s == A[p..p + |s|] && t == B[q..q + |t|]
    modifies d
    ensures carry <= 1 && OnlyIn(d, x, n)
    ensures Val(d[x..x + n]) + carry * Pow(n) == Val(s[..n]) + Val(t[..n])
  {
    hide Val, AddGetCarry;
    carry := 0;
    NothingYet(d[x..x + 0], s, t);
    for i := 0 to n
      invariant carry <= 1 && OnlyIn(d, x, i)
      invariant Val(d[x..x + i]) + carry * Pow(i) == Val(s[..i]) + Val(t[..i])
    {
      assert A[p + i] == s[i] && B[q + i] == t[i];
      var first := AddGetCarry(carry, A[p + i]);
      var second := AddGetCarry(first.0, B[q + i]);
      ghost var done := d[x..x + i];
      AddStep(done, second.0, carry, first.1 + second.1, Val(s[..i]), s[i], Val(t[..i]), t[i]);
      ValStep(s, i);
      ValStep(t, i);
      Put(d, x, i, second.0);
      carry := first.1 + second.1;
    }
  }

  lemma NothingYet(d: seq<Word>, s: seq<Word>, t: seq<Word>)
    requires d == []
    ensures Val(d) + 0 * Pow(0) == Val(s[..0]) + Val(t[..0])
  {
  }

  /** The words of the longer operand that have no partner. */
  method AddRest(d: array<Word>, x: nat, A: array<Word>, p: nat, from: nat, to: nat, carry: Word, ghost s: seq<Word>, ghost v: nat)
    returns (out: Word)
    requires from <= to == |s| && p + to <= A.Length && x + to <= d.Length && carry <= 1
    requires Readable(A, p, to, d, x, to) && A[p + from..p + to] == s[from..]
    requires Val(d[x..x + from]) + carry * Pow(from) == Val(s[..from]) + v
    modifies d
    ensures out <= 1 && OnlyIn(d, x + from, to - from)
    ensures Val(d[x..x + to]) + out * Pow(to) == Val(s) + v
  {
    hide Val, AddGetCarry;
    out := carry;
    for i := from to to
      invariant out <= 1 && OnlyIn(d, x + from, i - from)
      invariant Val(d[x..x + i]) + out * Pow(i) == Val(s[..i]) + v
    {
      assert A[p + i] == s[from..][i - from];
      var sum := AddGetCarry(A[p + i], out);
      ghost var done := d[x..x + i];
      AddStep(done, sum.0, out, sum.1, Val(s[..i]), s[i], v, 0);
      ValStep(s, i);
      Put(d, x, i, sum.0);
      out := sum.1;
    }
    assert s[..to] == s;
  }

  /** One more word of a difference. */
  lemma SubStep(s: seq<Word>, w: Word, c: nat, c': nat, va: nat, a: nat, vb: nat, b: nat)
    requires Val(s) - c * Pow(|s|) == va - vb && w - BASE * c' == a - b - c
    ensures Val(s + [w]) - c' * Pow(|s| + 1) == (va + a * Pow(|s|)) - (vb + b * Pow(|s|))
  {
    ValPush(s, w);
    DistributeSub(w, c', a, b, c, Pow(|s|));
  }

  lemma DistributeSub(w: int, c': int, a: int, b: int, c: int, p: int)
    requires w - BASE * c' == a - b - c
    ensures w * p - c' * (BASE * p) == a * p - b * p - c * p
  {
    assert (w - BASE * c') * p == w * p - c' * (BASE * p);
    assert (a - b - c) * p == a * p - b * p - c * p;
  }

  /** `d = a - b` for `a >= b`; `d` may be either operand. */
  method Sub(d: array<Word>, x: nat, A: array<Word>, p: nat, na: nat, B: array<Word>, q: nat, nb: nat) returns (r: nat)
    requires p + na <= A.Length && q + nb <= B.Length && nb <= na && x + na <= d.Length
    requires Readable(A, p, na, d, x, na) && Readable(B, q, nb, d, x, na)
    requires Val(A[p..p + na]) >= Val(B[q..q + nb])
    modifies d
    ensures r <= na && Normal(d[x..x + r]) && OnlyIn(d, x, na)
    ensures Val(d[x..x + r]) == old(Val(A[p..p + na]) - Val(B[q..q + nb]))
    ensures forall k :: x + r <= k < x + na ==> d[k] == 0
  {
    hide Val, SubGetCarry, Pow;
    ghost var s, t := A[p..p + na], B[q..q + nb];
    var carry: Word := SubBoth(d, x, A, p, B, q, nb, s, t);
    assert t[..nb] == t;
    for i := nb to na
      invariant carry <= 1 && OnlyIn(d, x, i)
      invariant Val(d[x..x + i]) - carry * Pow(i) == Val(s[..i]) - Val(t)
    {
      assert A[p + i] == s[i];
      var dif := SubGetCarry(A[p + i], carry);
      ghost var done := d[x..x + i];
      SubStep(done, dif.0, carry, dif.1, Val(s[..i]), s[i], Val(t), 0);
      ValStep(s, i);
      Put(d, x, i, dif.0);
      carry := dif.1;
    }
    assert s[..na] == s;
    ValBound(d[x..x + na]);
    r := Truncate(d, x, na);
  }

  method SubBoth(d: array<Word>, x: nat, A: array<Word>, p: nat, B: array<Word>, q: nat, n: nat, ghost s: seq<Word>, ghost t: seq<Word>)
    returns (carry: Word)
    requires p + |s| <= A.Length && q + |t| <= B.Length && x + n <= d.Length && n <= |s| && n <= |t|
    requires Readable(A, p, n, d, x, n) && Readable(B, q, n, d, x, n) && s == A[p..p + |s|] && t == B[q..q + |t|]
    modifies d
    ensures carry <= 1 && OnlyIn(d, x, n)
    ensures Val(d[x..x + n]) - carry * Pow(n) == Val(s[..n]) - Val(t[..n])
  {
    hide Val, SubGetCarry;
    carry := 0;
    NothingYet(d[x..x + 0], s, t);
    for i := 0 to n
      invariant carry <= 1 && OnlyIn(d, x, i)
      invariant Val(d[x..x + i]) - carry * Pow(i) == Val(s[..i]) - Val(t[..i])
    {
      assert A[p + i] == s[i] && B[q + i] == t[i];
      var first := SubGetCarry(A[p + i], carry);
      var second := SubGetCarry(first.0, B[q + i]);
      ghost var done := d[x..x + i];
      BorrowOnce(A[p + i], carry, B[q + i]);
      SubStep(done, second.0, carry, first.1 + second.1, Val(s[..i]), s[i], Val(t[..i]), t[i]);
      ValStep(s, i);
      ValStep(t, i);
      Put(d, x, i, second.0);
      carry := first.1 + second.1;
    }
  }

  lemma BorrowOnce(a: Word, c: Word, b: Word)
    requires c <= 1
    ensures SubGetCarry(a, c).1 + SubGetCarry(SubGetCarry(a, c).0, b).1 <= 1
  {
  }

  // ---- multiplication ----

  /** One more word of `o + s * f`. */
  lemma MulStep(done: seq<Word>, w: Word, c: nat, c': nat, vo: nat, o: nat, vs: nat, a: nat, f: nat)
    requires Val(done) + c * Pow(|done|) == vo + vs * f && w + BASE * c' == o + a * f + c
    ensures Val(done + [w]) + c' * Pow(|done| + 1) == (vo + o * Pow(|done|)) + (vs + a * Pow(|done|)) * f
  {
    var p := Pow(|done|);
    ValPush(done, w);
    Distribute(w, c', o, a * f, c, p);
    DistributeMul(vs, a, p, f);
  }

  lemma DistributeMul(vs: int, a: int, p: int, f: int)
    ensures (vs + a * p) * f == vs * f + a * f * p
  {
    assert (a * p) * f == a * f * p;
  }

  /** `w + BASE * carry` is what one step adds up to; nothing is lost, because
      `(BASE - 1) * (BASE - 1) + 2 * (BASE - 1)` still fits into two words. */
  function MulAddCarry(src: Word, factor: Word, carry: Word, old_: Word): (r: (Word, Word))
    ensures r.0 + BASE * r.1 == old_ + src * factor + carry
  {
    var low := AddGetCarry(MulLo(src, factor), carry);
    WordProduct(src, factor);
    var hi := low.1 + MulHi(src, factor);
    var sum := AddGetCarry(old_, low.0);
    (sum.0, hi + sum.1)
  }

  /** `d += a * factor`; the carry runs up as far as it has to. */
  method MulWordAdd(d: array<Word>, x: nat, A: array<Word>, p: nat, n: nat, factor: Word, ghost room: nat)
    requires p + n <= A.Length && n <= room && x + room <= d.Length && Apart(A, p, n, d, x, room)
    requires Val(d[x..x + room]) + Val(A[p..p + n]) * factor < Pow(room)
    modifies d
    ensures OnlyIn(d, x, room)
    ensures Val(d[x..x + room]) == old(Val(d[x..x + room])) + old(Val(A[p..p + n])) * factor
  {
    hide Val, Pow;
    ghost var s, o := A[p..p + n], d[x..x + room];
    var carry := MulWords(d, x, A, p, n, factor, s, o);
    var _ := CarryOn(d, x, n, carry, room, o, Val(s) * factor);
  }

  /** Carries into the words from `from` on, as far as there is a carry. */
  method CarryOn(d: array<Word>, x: nat, from: nat, carry: Word, ghost room: nat, ghost o: seq<Word>, ghost v: nat) returns (i: nat)
    requires from <= room == |o| && x + room <= d.Length && d[x + from..x + room] == o[from..]
    requires Val(d[x..x + from]) + carry * Pow(from) == Val(o[..from]) + v && Val(o) + v < Pow(room)
    modifies d
    ensures from <= i <= room && OnlyIn(d, x + from, i - from) && Val(d[x..x + room]) == Val(o) + v
    ensures Val(d[x..x + i]) == Val(o[..i]) + v
  {
    hide Val, Pow, AddGetCarry;
    i := from;
    var c: Word := carry;
    assert o[..room] == o;
    while c != 0
      invariant from <= i <= room && OnlyIn(d, x + from, i - from)
      invariant Val(d[x..x + i]) + c * Pow(i) == Val(o[..i]) + v
      decreases room - i
    {
      if i == room { NoCarryLeft(c, Val(d[x..x + i]), Val(o) + v, Pow(room)); }
      assert d[x + i] == o[from..][i - from];
      var sum := AddGetCarry(d[x + i], c);
      ghost var done := d[x..x + i];
      AddStep(done, sum.0, c, sum.1, Val(o[..i]), o[i], v, 0);
      ValStep(o, i);
      Put(d, x, i, sum.0);
      c := sum.1;
      i := i + 1;
    }
    ghost var whole := d[x..x + room];
    assert whole[..i] == d[x..x + i] && c * Pow(i) == 0;
    forall k | i <= k < |o|
      ensures whole[k] == o[from..][k - from]
    {
      assert whole[k] == d[x + k];
    }
    RestUnchanged(whole, o, from, i, v);
  }

  lemma RestUnchanged(whole: seq<Word>, o: seq<Word>, from: nat, i: nat, v: nat)
    requires from <= i <= |o| == |whole| && Val(whole[..i]) == Val(o[..i]) + v
    requires forall k :: i <= k < |o| ==> whole[k] == o[from..][k - from]
    ensures Val(whole) == Val(o) + v
  {
    assert o == o[..i] + o[i..] && whole == whole[..i] + o[i..];
    ValAppend(whole[..i], o[i..]);
    ValAppend(o[..i], o[i..]);
  }

  lemma NoCarryLeft(c: nat, v: nat, total: nat, p: nat)
    requires v + c * p == total < p
    ensures c == 0
  {
    if c > 0 { MulMono(1, c, p); }
  }

  method MulWords(d: array<Word>, x: nat, A: array<Word>, p: nat, n: nat, factor: Word, ghost s: seq<Word>, ghost o: seq<Word>)
    returns (carry: Word)
    requires n == |s| && p + n <= A.Length && n <= |o| && x + |o| <= d.Length && Apart(A, p, n, d, x, n)
    requires s == A[p..p + n] && o == d[x..x + |o|]
    modifies d
    ensures OnlyIn(d, x, n)
    ensures Val(d[x..x + n]) + carry * Pow(n) == Val(o[..n]) + Val(s) * factor
  {
    hide Val, MulAddCarry;
    carry := 0;
    NothingYet(d[x..x + 0], o, s);
    assert Val(s[..0]) * factor == 0 by { NothingYet([], s, s); }
    for i := 0 to n
      invariant OnlyIn(d, x, i)
      invariant Val(d[x..x + i]) + carry * Pow(i) == Val(o[..i]) + Val(s[..i]) * factor
    {
      assert A[p + i] == s[i] && d[x + i] == o[i];
      var r := MulAddCarry(A[p + i], factor, carry, d[x + i]);
      ghost var done := d[x..x + i];
      MulStep(done, r.0, carry, r.1, Val(o[..i]), o[i], Val(s[..i]), s[i], factor);
      ValStep(s, i);
      ValStep(o, i);
      Put(d, x, i, r.0);
      carry := r.1;
    }
    assert s[..n] == s;
  }

  /** `d = a * b` by the school method, into zeros. */
  method MulAdd(d: array<Word>, x: nat, A: array<Word>, p: nat, na: nat, B: array<Word>, q: nat, nb: nat) returns (r: nat)
    requires p + na <= A.Length && q + nb <= B.Length && x + na + nb <= d.Length
    requires Apart(A, p, na, d, x, na + nb) && Apart(B, q, nb, d, x, na + nb)
    requires forall k :: x <= k < x + na + nb ==> d[k] == 0
    modifies d
    ensures r <= na + nb && Normal(d[x..x + r]) && OnlyIn(d, x, na + nb)
    ensures Val(d[x..x + r]) == old(Val(A[p..p + na]) * Val(B[q..q + nb]))
    ensures forall k :: x + r <= k < x + na + nb ==> d[k] == 0
  {
    hide Val, Pow;
    ghost var s, t, n := A[p..p + na], B[q..q + nb], na + nb;
    ValZeros(d[x..x + n]);
    NoFactor(s, t);
    if na == 0 || nb == 0 { return 0; }
    for i := 0 to nb
      invariant OnlyIn(d, x, n) && Val(d[x..x + n]) == Val(s) * Val(t[..i])
    {
      assert A[p..p + na] == s;
      Row(d, x, A, p, na, B[q + i], i, s, t);
    }
    assert t[..nb] == t;
    r := Truncate(d, x, na + nb);
  }

  /** One row: `a` times one word of `b`, added at that word's position. */
  method Row(d: array<Word>, x: nat, A: array<Word>, p: nat, na: nat, factor: Word, i: nat, ghost s: seq<Word>, ghost t: seq<Word>)
    requires p + na <= A.Length && x + na + |t| <= d.Length && i < |t| && factor == t[i]
    requires Apart(A, p, na, d, x, na + |t|) && s == A[p..p + na]
    requires Val(d[x..x + na + |t|]) == Val(s) * Val(t[..i])
    modifies d
    ensures OnlyIn(d, x, na + |t|) && Val(d[x..x + na + |t|]) == Val(s) * Val(t[..i + 1])
  {
    hide Val, Pow;
    ghost var n := na + |t|;
    RowFits(d[x..x + n], s, t, i);
    ghost var low, before := d[x..x + i], d[x + i..x + n];
    assert d[x..x + n] == low + before && d[x..x + n][i..] == before;
    MulWordAdd(d, x + i, A, p, na, factor, n - i);
    ghost var after := d[x + i..x + n];
    assert d[x..x + n] == low + after;
    RowAdded(low, before, after, s, t, i);
  }

  lemma NoFactor(s: seq<Word>, t: seq<Word>)
    ensures Val(s) * Val(t[..0]) == 0 && (s == [] || t == [] ==> Val(s) * Val(t) == 0) && Val([]) == 0
  {
    assert t[..0] == [];
  }

  /** A row of the school method fits into the words above its lowest. */
  lemma RowFits(d: seq<Word>, s: seq<Word>, t: seq<Word>, i: nat)
    requires i < |t| && |d| == |s| + |t| && Val(d) == Val(s) * Val(t[..i])
    ensures Val(d[i..]) + Val(s) * t[i] < Pow(|d| - i)
  {
    hide Val, Pow;
    var p, hi := Pow(i), Val(d[i..]);
    assert d == d[..i] + d[i..];
    ValAppend(d[..i], d[i..]);
    ValStep(t, i);
    PrefixBelow(t, i + 1);
    ProductBound(s, t);
    PowAdd(i, |d| - i);
    MulMono(Val(t[..i + 1]), Val(t), Val(s));
    RowArithmetic(p, hi, Val(s), t[i], Val(t[..i]), Val(d[..i]), Pow(|d| - i));
  }

  lemma RowArithmetic(p: nat, hi: nat, a: nat, w: nat, v: nat, low: nat, q: nat)
    requires p > 0 && low + p * hi == a * v && (v + w * p) * a < p * q
    ensures hi + a * w < q
  {
    assert (v + w * p) * a == a * v + p * (a * w);
    assert p * (hi + a * w) == p * hi + p * (a * w);
    if hi + a * w >= q { MulMono(q, hi + a * w, p); }
  }

  lemma PrefixBelow(t: seq<Word>, i: nat)
    requires i <= |t|
    ensures Val(t[..i]) <= Val(t)
  {
    hide Val, Pow;
    assert t == t[..i] + t[i..];
    ValAppend(t[..i], t[i..]);
    NonNegative(Pow(i), Val(t[i..]));
  }

  lemma NonNegative(a: nat, b: nat)
    ensures a * b >= 0
  {
  }

  lemma ProductBound(s: seq<Word>, t: seq<Word>)
    ensures Val(s) * Val(t) < Pow(|s| + |t|) && Val(t) * Val(s) == Val(s) * Val(t)
  {
    hide Val, Pow;
    ValBound(s);
    ValBound(t);
    PowAdd(|s|, |t|);
    MulMono(Val(s), Pow(|s|), Val(t));
    MulMono(Val(t) + 1, Pow(|t|), Pow(|s|));
  }

  lemma RowAdded(low: seq<Word>, before: seq<Word>, after: seq<Word>, s: seq<Word>, t: seq<Word>, i: nat)
    requires |low| == i < |t| && Val(low + before) == Val(s) * Val(t[..i]) && Val(after) == Val(before) + Val(s) * t[i]
    ensures Val(low + after) == Val(s) * Val(t[..i + 1])
  {
    hide Val, Pow;
    ValAppend(low, before);
    ValAppend(low, after);
    ValStep(t, i);
    RowSum(Val(low), Pow(i), Val(before), Val(after), Val(s), t[i], Val(t[..i]), Val(t[..i + 1]));
  }

  lemma RowSum(low: int, p: int, b: int, b': int, a: int, w: int, v: int, v': int)
    requires low + p * b == a * v && b' == b + a * w && v' == v + w * p
    ensures low + p * b' == a * v'
  {
    assert p * (b + a * w) == p * b + p * (a * w);
    assert a * (v + w * p) == a * v + a * (w * p);
    assert p * (a * w) == a * (w * p);
  }

  // ---- one word ----

  /** All words of `d[x + from..x + to]` are zero. */
  predicate Clear(d: array<Word>, x: nat, from: nat, to: nat)
    requires x + to <= d.Length
    reads d
  {
    forall k :: x + from <= k < x + to ==> d[k] == 0
  }

  function MulCarry(src: Word, factor: Word, carry: Word): (r: (Word, Word))
    ensures r.0 + BASE * r.1 == src * factor + carry
  {
    var low := AddGetCarry(MulLo(src, factor), carry);
    WordProduct(src, factor);
    (low.0, low.1 + MulHi(src, factor))
  }

  /** `d *= factor`, into the zeros above it. */
  method MulWord(d: array<Word>, x: nat, n: nat, factor: Word, ghost room: nat) returns (r: nat)
    requires n <= room && x + room <= d.Length && Clear(d, x, n, room)
    requires Val(d[x..x + n]) * factor < Pow(room)
    modifies d
    ensures r <= room && Normal(d[x..x + r]) && OnlyIn(d, x, room) && Clear(d, x, r, room)
    ensures Val(d[x..x + r]) == old(Val(d[x..x + n])) * factor
  {
    hide Val, Pow;
    ghost var s := d[x..x + n];
    var carry := MulEach(d, x, n, factor, s);
    var i := n;
    if carry != 0 {
      TopFits(d[x..x + n], carry, Val(s) * factor, room);
      PutTop(d, x, i, carry);
      i := i + 1;
    }
    r := Truncate(d, x, i);
  }

  lemma TopFits(s: seq<Word>, w: Word, v: nat, room: nat)
    requires Val(s) + w * Pow(|s|) == v < Pow(room) && w != 0
    ensures |s| < room
  {
    MulMono(1, w, Pow(|s|));
    if room <= |s| { PowMonotone(room, |s|); }
  }

  method MulEach(d: array<Word>, x: nat, n: nat, factor: Word, ghost s: seq<Word>) returns (carry: Word)
    requires x + n <= d.Length && s == d[x..x + n]
    modifies d
    ensures OnlyIn(d, x, n) && Val(d[x..x + n]) + carry * Pow(n) == Val(s) * factor
  {
    hide Val, MulCarry;
    carry := 0;
    NothingYet(d[x..x + 0], s, s);
    assert Val(s[..0]) * factor == 0 by { NothingYet([], s, s); }
    for i := 0 to n
      invariant OnlyIn(d, x, i)
      invariant Val(d[x..x + i]) + carry * Pow(i) == Val(s[..i]) * factor
    {
      assert d[x + i] == s[i];
      var r := MulCarry(d[x + i], factor, carry);
      ghost var done := d[x..x + i];
      MulStep(done, r.0, carry, r.1, 0, 0, Val(s[..i]), s[i], factor);
      ValStep(s, i);
      Put(d, x, i, r.0);
      carry := r.1;
    }
    assert s[..n] == s;
  }

  /** `d += b`, into the zeros above it. */
  method AddWord(d: array<Word>, x: nat, n: nat, b: Word, ghost room: nat) returns (r: nat)
    requires n <= room && x + room <= d.Length && Clear(d, x, n, room)
    requires Val(d[x..x + n]) + b < Pow(room)
    modifies d
    ensures r <= room && Normal(d[x..x + r]) && OnlyIn(d, x, room) && Clear(d, x, r, room)
    ensures Val(d[x..x + r]) == old(Val(d[x..x + n])) + b
  {
    hide Val, Pow, AddGetCarry;
    ghost var s, v := d[x..x + n], Val(d[x..x + n]) + b;
    var carry: Word := b;
    StartCarry(d[x..x + 0], s, b);
    for i := 0 to n
      invariant OnlyIn(d, x, i)
      invariant Val(d[x..x + i]) + carry * Pow(i) == Val(s[..i]) + b
    {
      assert d[x + i] == s[i];
      var sum := AddGetCarry(d[x + i], carry);
      AddStep(d[x..x + i], sum.0, carry, sum.1, Val(s[..i]), s[i], b, 0);
      ValStep(s, i);
      Put(d, x, i, sum.0);
      carry := sum.1;
    }
    assert s[..n] == s;
    var i := n;
    while carry != 0
      invariant n <= i <= room && OnlyIn(d, x, i) && Clear(d, x, i, room)
      invariant Val(d[x..x + i]) + carry * Pow(i) == v
      decreases room - i, carry
    {
      TopFits(d[x..x + i], carry, v, room);
      var sum := AddGetCarry(d[x + i], carry);
      PutTop(d, x, i, sum.0);
      carry := sum.1;
      i := i + 1;
    }
    r := Truncate(d, x, i);
  }

  lemma StartCarry(none: seq<Word>, s: seq<Word>, b: nat)
    requires none == []
    ensures Val(none) + b * Pow(0) == Val(s[..0]) + b
  {
  }
}
