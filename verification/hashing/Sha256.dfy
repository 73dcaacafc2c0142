/** Streaming SHA-256: bytes are collected into a block, and a full block is compressed at once. */
module Sha256 {
  import opened Sha256Standard

  // ---- compression over sixteen words ----

  /** The word of the schedule that a slot of the circular window holds before round `i`. */
  function InSlot(i: nat, j: nat): (t: nat)
    requires 16 <= i && j < 16
    ensures i - 16 <= t < i && t % 16 == j
  {
    var last := i - 1;
    last - (last - j) % 16
  }

  /** The window holds the last sixteen words of the schedule. */
  ghost predicate Window(w: seq<Word>, block: seq<Byte>, i: nat)
    requires |block| == BLOCK
  {
    |w| == 16 && 16 <= i <= 64 && forall j :: 0 <= j < 16 ==> w[j] == W(block, InSlot(i, j))
  }

  lemma SlotOf(i: nat, t: nat)
    requires 16 <= i && i - 16 <= t < i
    ensures InSlot(i, t % 16) == t
  {
  }

  lemma SlotNext(i: nat, j: nat)
    requires 16 <= i && j < 16
    ensures InSlot(i + 1, j) == if j == i % 16 then i else InSlot(i, j)
  {
    if j != i % 16 { SlotOf(i + 1, InSlot(i, j)); } else { SlotOf(i + 1, i); }
  }

  /** The word that replaces the oldest one, as the source adds it up. */
  function WindowWord(w16: Word, w15: Word, w2: Word, w7: Word): Word {
    w16 + (SmallSigma0(w15) + SmallSigma1(w2) + w7)
  }

  lemma WindowWordScheduled(w16: Word, w15: Word, w2: Word, w7: Word)
    ensures WindowWord(w16, w15, w2, w7) == ScheduleWord(w2, w7, w15, w16)
  {
    hide SmallSigma0, SmallSigma1;
    Reorder(w16, SmallSigma0(w15), SmallSigma1(w2), w7);
  }

  lemma WindowAt(w: seq<Word>, block: seq<Byte>, i: nat, j: nat, t: nat)
    requires |block| == BLOCK && Window(w, block, i) && i - 16 <= t < i && j == (t + 16) % 16
    ensures w[j] == W(block, t)
  {
    hide W;
    SlotOf(i, t);
    assert j == t % 16;
  }

  lemma NextWord(w: seq<Word>, block: seq<Byte>, i: nat)
    requires |block| == BLOCK && i < 64 && Window(w, block, i)
    ensures WindowWord(w[i % 16], w[(i + 1) % 16], w[(i + 14) % 16], w[(i + 9) % 16]) == W(block, i)
  {
    hide WindowWord, ScheduleWord, BigEndian, InSlot;
    WindowAt(w, block, i, i % 16, i - 16);
    WindowAt(w, block, i, (i + 1) % 16, i - 15);
    WindowAt(w, block, i, (i + 14) % 16, i - 2);
    WindowAt(w, block, i, (i + 9) % 16, i - 7);
    WindowWordScheduled(W(block, i - 16), W(block, i - 15), W(block, i - 2), W(block, i - 7));
  }

  lemma Replaced(w: seq<Word>, block: seq<Byte>, i: nat, x: Word)
    requires |block| == BLOCK && i < 64 && Window(w, block, i) && x == W(block, i)
    ensures Window(w[i % 16 := x], block, i + 1)
  {
    hide W, InSlot;
    var v := w[i % 16 := x];
    forall j | 0 <= j < 16
      ensures v[j] == W(block, InSlot(i + 1, j))
    {
      SlotNext(i, j);
    }
  }

  lemma Reorder(a: Word, b: Word, c: Word, d: Word)
    ensures a + (b + c + d) == c + d + b + a
  {
  }

  lemma WindowStart(w: seq<Word>, block: seq<Byte>)
    requires |block| == BLOCK && |w| == 16 && forall j :: 0 <= j < 16 ==> w[j] == W(block, j)
    ensures Window(w, block, 16)
  {
    hide W;
    forall j: nat | j < 16
      ensures InSlot(16, j) == j
    {
      SlotOf(16, j);
    }
  }

  /** One round, as the source adds up: the word of the schedule comes first. */
  function RoundFrom(r: Registers, w: Word, k: Word): Registers {
    var t1 := w + (r.h + BigSigma1(r.e) + Ch(r.e, r.f, r.g) + k);
    var t2 := BigSigma0(r.a) + Maj(r.a, r.b, r.c);
    Registers(t1 + t2, r.a, r.b, r.c, r.d + t1, r.e, r.f, r.g)
  }

  lemma RoundIsRound(r: Registers, w: Word, k: Word)
    ensures RoundFrom(r, w, k) == Round(r, k, w)
  {
    hide BigSigma0, BigSigma1, Ch, Maj;
    Rotate(w, r.h + BigSigma1(r.e) + Ch(r.e, r.f, r.g), k);
  }

  lemma Rotate(w: Word, x: Word, k: Word)
    ensures w + (x + k) == x + k + w
  {
  }

  lemma RoundsStart(r: Registers, block: seq<Byte>)
    requires |block| == BLOCK
    ensures Rounds(r, block, 0) == r
  {
  }

  lemma FirstWords(block: seq<Byte>, t: nat)
    requires |block| == BLOCK && t < 16
    ensures W(block, t) == BigEndian(block[4 * t], block[4 * t + 1], block[4 * t + 2], block[4 * t + 3])
  {
    hide BigEndian;
  }

  lemma NextRound(start: Registers, r: Registers, block: seq<Byte>, i: nat)
    requires |block| == BLOCK && i < 64 && r == Rounds(start, block, i)
    ensures RoundFrom(r, W(block, i), K(i)) == Rounds(start, block, i + 1)
  {
    hide K, W, RoundFrom, Round;
    RoundIsRound(r, W(block, i), K(i));
  }

  method AddTo(iv: array<Word>, r: Registers)
    requires iv.Length == 8
    modifies iv
    ensures iv[..] == Accumulate(old(iv[..]), r)
  {
    hide Plus;
    ghost var s := iv[..];
    iv[0], iv[1], iv[2], iv[3] := Plus(iv[0], r.a), Plus(iv[1], r.b), Plus(iv[2], r.c), Plus(iv[3], r.d);
    iv[4], iv[5], iv[6], iv[7] := Plus(iv[4], r.e), Plus(iv[5], r.f), Plus(iv[6], r.g), Plus(iv[7], r.h);
    EightWords(iv[..], s, r);
  }

  lemma EightWords(t: seq<Word>, s: State, r: Registers)
    requires |t| == 8
    requires t[0] == Plus(s[0], r.a) && t[1] == Plus(s[1], r.b) && t[2] == Plus(s[2], r.c) && t[3] == Plus(s[3], r.d)
    requires t[4] == Plus(s[4], r.e) && t[5] == Plus(s[5], r.f) && t[6] == Plus(s[6], r.g) && t[7] == Plus(s[7], r.h)
    ensures t == Accumulate(s, r)
  {
    hide Plus;
  }

  lemma CompressIs(s: State, block: seq<Byte>)
    requires |block| == BLOCK
    ensures Compress(s, block) == Accumulate(s, Rounds(Load(s), block, 64))
  {
  }

  /** Compresses one block into the hash value, with a window of sixteen words instead of the whole schedule. */
  method CompressInto(iv: array<Word>, data: array<Byte>)
    requires iv.Length == 8 && data.Length == BLOCK
    modifies iv
    ensures iv[..] == Compress(old(iv[..]), data[..])
  {
    hide K, W, BigEndian, RoundFrom, Round, Rounds, Compress, Accumulate, WindowWord, Window;
    ghost var block, s := data[..], iv[..];
    var r := Registers(iv[0], iv[1], iv[2], iv[3], iv[4], iv[5], iv[6], iv[7]);
    var workSpace := new Word[16];
    RoundsStart(r, block);
    for i := 0 to 16
      invariant forall j :: 0 <= j < i ==> workSpace[j] == W(block, j)
      invariant r == Rounds(Load(s), block, i) && iv[..] == s
    {
      var n := BigEndian(data[4 * i], data[4 * i + 1], data[4 * i + 2], data[4 * i + 3]);
      FirstWords(block, i);
      workSpace[i] := n;
      NextRound(Load(s), r, block, i);
      r := RoundFrom(r, n, K(i));
    }
    WindowStart(workSpace[..], block);
    for i := 16 to 64
      invariant Window(workSpace[..], block, i) && r == Rounds(Load(s), block, i) && iv[..] == s
    {
      NextWord(workSpace[..], block, i);
      Replaced(workSpace[..], block, i, W(block, i));
      var n := WindowWord(workSpace[i % 16], workSpace[(i + 1) % 16], workSpace[(i + 14) % 16], workSpace[(i + 9) % 16]);
      ghost var before := workSpace[..];
      workSpace[i % 16] := n;
      assert workSpace[..] == before[i % 16 := n];
      NextRound(Load(s), r, block, i);
      r := RoundFrom(r, n, K(i));
    }
    AddTo(iv, r);
    CompressIs(s, block);
  }

  // ---- padding ----

  function Whole(n: nat): (w: nat)
    ensures w <= n && w % BLOCK == 0 && n < w + BLOCK
  {
    n - n % BLOCK
  }

  lemma AbsorbBlock(message: seq<Byte>, block: seq<Byte>)
    requires |message| % BLOCK == 0 && |block| == BLOCK
    ensures (|message| + |block|) % BLOCK == 0 && Absorb(message + block) == Compress(Absorb(message), block)
  {
    hide Compress;
    var s := message + block;
    assert s[..|s| - BLOCK] == message && s[|s| - BLOCK..] == block;
  }

  /** The length still fits behind the last bytes of the message. */
  lemma PadOnce(m: seq<Byte>, tail: seq<Byte>, block: seq<Byte>)
    requires tail == m[Whole(|m|)..] && |tail| < 56
    requires block == tail + [0x80] + Zeros(55 - |tail|) + Length(Bits(|m|))
    ensures Absorb(Padded(m)) == Compress(Absorb(m[..Whole(|m|)]), block)
  {
    hide Absorb, Compress, Zeros, Length;
    assert Padded(m) == m[..Whole(|m|)] + block by {
      assert PadZeros(|m|) == 55 - |tail|;
      assert m == m[..Whole(|m|)] + tail;
    }
    AbsorbBlock(m[..Whole(|m|)], block);
  }

  /** It does not: a second block of padding follows. */
  lemma PadTwice(m: seq<Byte>, tail: seq<Byte>, first: seq<Byte>, second: seq<Byte>)
    requires tail == m[Whole(|m|)..] && 56 <= |tail| && first == tail + [0x80] + Zeros(63 - |tail|)
    requires second == Zeros(56) + Length(Bits(|m|))
    ensures Absorb(Padded(m)) == Compress(Compress(Absorb(m[..Whole(|m|)]), first), second)
  {
    hide Absorb, Compress, Length;
    var n := Whole(|m|);
    assert Padded(m) == m[..n] + first + second by {
      assert PadZeros(|m|) == 119 - |tail|;
      assert m == m[..n] + tail;
      assert Zeros(119 - |tail|) == Zeros(63 - |tail|) + Zeros(56);
    }
    AbsorbBlock(m[..n], first);
    AbsorbBlock(m[..n] + first, second);
  }

  method SetZero(d: array<Byte>, from: nat, to: nat)
    requires from <= to <= d.Length
    modifies d
    ensures d[..] == old(d[..from]) + Zeros(to - from) + old(d[to..])
  {
    for i := from to to
      invariant forall k :: 0 <= k < d.Length ==> d[k] == if from <= k < i then 0 else old(d[k])
    {
      d[i] := 0;
    }
  }

  /** `uint64_t` addition of whole bytes. */
  function CountBits(bits: nat, bytes: nat): nat {
    (bits + bytes * 8) % 0x1_0000_0000_0000_0000
  }

  function Bits(bytes: nat): nat {
    8 * bytes % 0x1_0000_0000_0000_0000
  }

  lemma BitsAdd(m: nat, n: nat)
    ensures CountBits(Bits(m), n) == Bits(m + n)
  {
  }

  /** A byte that does not fill the block, and one that does. */
  lemma WholeStep(n: nat)
    ensures Whole(n + 1) == if n - Whole(n) + 1 < BLOCK then Whole(n) else n + 1
  {
  }

  class Hasher {
    const iv: array<Word>
    const leftover: array<Byte>
    var bitsHashed: nat
    var leftoverOffset: nat

    ghost predicate Valid()
      reads this
    {
      iv.Length == 8 && leftover.Length == BLOCK && leftoverOffset < BLOCK
    }

    /** The message so far is `m`: its whole blocks are compressed, the rest is waiting. */
    ghost predicate Hashed(m: seq<Byte>)
      reads this, iv, leftover
    {
      && Valid() && iv[..] == Absorb(m[..Whole(|m|)]) && leftoverOffset == |m| - Whole(|m|)
      && leftover[..leftoverOffset] == m[Whole(|m|)..] && bitsHashed == Bits(Whole(|m|))
    }

    constructor ()
      ensures Valid() && fresh(iv) && fresh(leftover)
    {
      iv := new Word[8];
      leftover := new Byte[BLOCK];
      bitsHashed, leftoverOffset := 0, 0;
    }

    method Init()
      requires Valid()
      modifies this, iv, leftover
      ensures Hashed([])
    {
      SetZero(leftover, 0, BLOCK);
      bitsHashed, leftoverOffset := 0, 0;
      iv[0], iv[1], iv[2], iv[3] := 0x6a09e667, 0xbb67ae85, 0x3c6ef372, 0xa54ff53a;
      iv[4], iv[5], iv[6], iv[7] := 0x510e527f, 0x9b05688c, 0x1f83d9ab, 0x5be0cd19;
    }

    /** One byte of `Update`. */
    method UpdateByte(b: Byte, ghost m: seq<Byte>)
      requires Hashed(m)
      modifies this, iv, leftover
      ensures Hashed(m + [b])
    {
      hide Absorb, Compress, Bits, CountBits, Whole;
      ghost var n, tail := Whole(|m|), leftover[..leftoverOffset];
      WholeStep(|m|);
      BitsAdd(n, BLOCK);
      assert (m + [b])[..n] == m[..n] && (m + [b])[n..] == tail + [b];
      leftover[leftoverOffset] := b;
      leftoverOffset := leftoverOffset + 1;
      assert leftover[..leftoverOffset] == tail + [b];
      if leftoverOffset >= BLOCK {
        AbsorbBlock(m[..n], leftover[..]);
        assert m[..n] + leftover[..] == m + [b];
        CompressInto(iv, leftover);
        leftoverOffset := 0;
        bitsHashed := CountBits(bitsHashed, BLOCK);
        assert (m + [b])[..|m| + 1] == m + [b];
      }
    }

    method Update(data: seq<Byte>, ghost m: seq<Byte>)
      requires Hashed(m)
      modifies this, iv, leftover
      ensures Hashed(m + data)
    {
      hide Hashed;
      assert m + data[..0] == m;
      for i := 0 to |data|
        invariant Hashed(m + data[..i])
      {
        UpdateByte(data[i], m + data[..i]);
        assert m + data[..i] + [data[i]] == m + data[..i + 1];
      }
      assert data[..|data|] == data;
    }
  
    /** Pads, hashes the last one or two blocks, and wipes the state. */
    method Final(digest: array<Byte>, at: nat, ghost m: seq<Byte>)
      requires Hashed(m) && at + 32 <= digest.Length && digest != leftover
      modifies this, iv, leftover, digest
      ensures digest[..] == old(digest[..at]) + Digest(m) + old(digest[at + 32..])
      ensures Valid() && bitsHashed == leftoverOffset == 0 && leftover[..] == Zeros(BLOCK) && iv[..] == ZERO_STATE
    {
      hide Absorb, Compress, Bytes, Zeros, Digest, Padded, Length;
      Pad(m);
      DigestIs(m);
      WriteWords(digest, at, iv);
      SetZero(leftover, 0, BLOCK);
      assert leftover[..] == Zeros(BLOCK);
      bitsHashed, leftoverOffset := 0, 0;
      iv[0], iv[1], iv[2], iv[3] := 0, 0, 0, 0;
      iv[4], iv[5], iv[6], iv[7] := 0, 0, 0, 0;
    }

    /** Hashes the padding. */
    method Pad(ghost m: seq<Byte>)
      requires Hashed(m)
      modifies this, iv, leftover
      ensures Valid() && iv[..] == Absorb(Padded(m))
    {
      hide Absorb, Compress, Padded, Length, Bits, CountBits, Whole;
      ghost var n, tail := Whole(|m|), leftover[..leftoverOffset];
      BitsAdd(Whole(|m|), leftoverOffset);
      bitsHashed := CountBits(bitsHashed, leftoverOffset);
      leftover[leftoverOffset] := 0x80;
      leftoverOffset := leftoverOffset + 1;
      assert leftover[..leftoverOffset] == tail + [0x80];
      if leftoverOffset > BLOCK - 8 {
        SetZero(leftover, leftoverOffset, BLOCK);
        ghost var first := leftover[..];
        CompressInto(iv, leftover);
        leftoverOffset := 0;
        LastBlock();
        PadTwice(m, tail, first, leftover[..]);
      } else {
        LastBlock();
        PadOnce(m, tail, leftover[..]);
      }
      CompressInto(iv, leftover);
      leftoverOffset := 0;
    }

    /** Zeros up to the length, and the length in big-endian order. */
    method LastBlock()
      requires Valid() && leftoverOffset <= BLOCK - 8
      modifies leftover
      ensures leftover[..] == old(leftover[..leftoverOffset]) + Zeros(56 - leftoverOffset) + Length(bitsHashed)
    {
      hide Length;
      SetZero(leftover, leftoverOffset, BLOCK - 8);
      WriteLength();
      assert leftover[..] == leftover[..56] + leftover[56..];
    }

    method WriteLength()
      requires Valid()
      modifies leftover
      ensures leftover[..56] == old(leftover[..56]) && leftover[56..] == Length(bitsHashed)
    {
      hide LengthByte;
      leftover[63], leftover[62] := LengthByte(bitsHashed, 1), LengthByte(bitsHashed, 0x100);
      leftover[61], leftover[60] := LengthByte(bitsHashed, 0x1_0000), LengthByte(bitsHashed, 0x100_0000);
      leftover[59], leftover[58] := LengthByte(bitsHashed, 0x1_0000_0000), LengthByte(bitsHashed, 0x100_0000_0000);
      leftover[57] := LengthByte(bitsHashed, 0x1_0000_0000_0000);
      leftover[56] := LengthByte(bitsHashed, 0x100_0000_0000_0000);
    }
  }

  const ZERO_STATE: State := [0, 0, 0, 0, 0, 0, 0, 0]

  lemma DigestIs(m: seq<Byte>)
    ensures Digest(m) == Bytes(Absorb(Padded(m)))
  {
  }

  /** Each word, most significant byte first. */
  method WriteWords(digest: array<Byte>, at: nat, iv: array<Word>)
    requires iv.Length == 8 && at + 32 <= digest.Length
    modifies digest
    ensures digest[..] == old(digest[..at]) + Bytes(iv[..]) + old(digest[at + 32..])
  {
    hide WordBytes, Bytes;
    ghost var before, words := digest[..], iv[..];
    NoWords(before, at, words);
    for i := 0 to 8
      invariant iv[..] == words && digest[..] == before[..at] + Bytes(words[..i]) + before[at + 4 * i..]
    {
      ghost var d := digest[..];
      var b := WordBytes(iv[i]);
      WriteWord(digest, at + 4 * i, b);
      NextWordWritten(before, d, at, words, i);
    }
    assert words[..8] == words;
  }

  lemma NoWords(before: seq<Byte>, at: nat, words: seq<Word>)
    requires at <= |before|
    ensures before == before[..at] + Bytes(words[..0]) + before[at..]
  {
  }

  lemma NextWordWritten(before: seq<Byte>, d: seq<Byte>, at: nat, words: seq<Word>, i: nat)
    requires i < |words| && at + 4 * i + 4 <= |before|
    requires d == before[..at] + Bytes(words[..i]) + before[at + 4 * i..]
    ensures |d| == |before|
    ensures d[..at + 4 * i] + WordBytes(words[i]) + d[at + 4 * i + 4..] ==
            before[..at] + Bytes(words[..i + 1]) + before[at + 4 * (i + 1)..]
  {
    hide WordBytes;
    assert words[..i + 1][..i] == words[..i];
    assert d[..at + 4 * i] == before[..at] + Bytes(words[..i]);
    assert d[at + 4 * i + 4..] == before[at + 4 * (i + 1)..];
  }

  method WriteWord(digest: array<Byte>, at: nat, b: seq<Byte>)
    requires |b| == 4 && at + 4 <= digest.Length
    modifies digest
    ensures digest[..] == old(digest[..at]) + b + old(digest[at + 4..])
  {
    digest[at], digest[at + 1], digest[at + 2], digest[at + 3] := b[0], b[1], b[2], b[3];
  }
}
