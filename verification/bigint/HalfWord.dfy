/** Dividing a run of words, in place, by a number below half a word. */
module HalfWord {
  import opened Words
  import opened Bits
  import opened BitLevel
  import opened Shifts

  /** Half a word of the dividend, behind the remainder so far. */
  method DivideHalf(remainder: Word, part: nat, denominator: Word) returns (quotient: nat, rest: Word)
    requires 0 < denominator < HALF && remainder < denominator && part < HALF
    ensures remainder * HALF + part == quotient * denominator + rest && rest < denominator && quotient < HALF
  {
    var x := remainder * HALF + part;
    BelowHalf(remainder, part, denominator);
    quotient, rest := x / denominator, x % denominator;
    assert x == x / denominator * denominator + x % denominator;
  }

  lemma BelowHalf(remainder: nat, part: nat, denominator: nat)
    requires 0 < denominator < HALF && remainder < denominator && part < HALF
    ensures remainder * HALF + part < BASE && 0 <= (remainder * HALF + part) / denominator < HALF
  {
    MulMono(remainder + 1, denominator, HALF);
    BelowQuotient(remainder * HALF + part, HALF, denominator);
  }

  /** One word of the quotient, from its two halves. */
  method DivideWord(remainder: Word, w: Word, denominator: Word) returns (q: Word, rest: Word)
    requires 0 < denominator < HALF && remainder < denominator
    ensures remainder * BASE + w == q * denominator + rest && rest < denominator
  {
    var hi, r := DivideHalf(remainder, w / HALF, denominator);
    var lo, r' := DivideHalf(r, w % HALF, denominator);
    q, rest := hi * HALF + lo, r';
    assert (hi * HALF + lo) * denominator == HALF * (hi * denominator) + lo * denominator;
  }

  /** From the top word down, as one divides by hand. */
  method DivMod(d: array<Word>, n: nat, denominator: Word, ghost s: seq<Word>) returns (size: nat, remainder: Word)
    requires n <= d.Length && s == d[..n] && 0 < denominator < HALF
    modifies d
    ensures size <= n && Normal(d[..size]) && remainder < denominator
    ensures Val(s) == Val(d[..size]) * denominator + remainder
  {
    hide Val, Pow;
    remainder := 0;
    var i := n;
    NothingAbove(s[n..], d[n..n], denominator);
    while i > 0
      invariant 0 <= i <= n && remainder < denominator
      invariant forall k :: 0 <= k < i ==> d[k] == s[k]
      invariant Val(s[i..]) == Val(d[i..n]) * denominator + remainder
    {
      i := i - 1;
      ghost var above := d[i + 1..n];
      var w;
      w, remainder := DivideWord(remainder, d[i], denominator);
      ghost var r := remainder;
      assert d[i] == s[i];
      OneMoreWord(s, i, above, w, denominator, Val(s[i + 1..]) - Val(above) * denominator, remainder);
      d[i] := w;
      assert d[i..n] == [w] + above;
    }
    assert s[0..] == s && d[0..n] == d[..n];
    size := TruncateAll(d, n);
  }

  lemma NothingAbove(s: seq<Word>, t: seq<Word>, denominator: nat)
    requires s == [] && t == []
    ensures Val(s) == Val(t) * denominator + 0
  {
  }

  lemma OneMoreWord(s: seq<Word>, i: nat, above: seq<Word>, w: Word, denominator: nat, r0: int, r: nat)
    requires i < |s| && Val(s[i + 1..]) == Val(above) * denominator + r0
    requires r0 * BASE + s[i] == w * denominator + r
    ensures Val(s[i..]) == Val([w] + above) * denominator + r
  {
    hide Val, Pow;
    assert s[i..] == [s[i]] + s[i + 1..];
    ValAppend([s[i]], s[i + 1..]);
    ValAppend([w], above);
    OneWord(s[i]);
    OneWord(w);
    var q := Val(above);
    assert (w + BASE * q) * denominator == w * denominator + BASE * (q * denominator);
  }
}
