/** SHA-256 as FIPS 180-4 defines it: padding in section 5.1.1, hashing in section 6.2.2. */
module Sha256Standard {
  type Byte = bv8
  type Word = bv32

  const BLOCK: nat := 64

  /** The eight working variables. */
  datatype Registers = Registers(a: Word, b: Word, c: Word, d: Word, e: Word, f: Word, g: Word, h: Word)

  type State = s: seq<Word> | |s| == 8 witness [0, 0, 0, 0, 0, 0, 0, 0]

  const INITIAL: State :=
    [0x6a09e667, 0xbb67ae85, 0x3c6ef372, 0xa54ff53a, 0x510e527f, 0x9b05688c, 0x1f83d9ab, 0x5be0cd19]

  // ---- functions on words, section 4.1.2 ----

  /** Addition modulo 2^32. */
  function Plus(x: Word, y: Word): Word { x + y }

  function BigSigma0(x: Word): Word { x.RotateRight(2) ^ x.RotateRight(13) ^ x.RotateRight(22) }

  function BigSigma1(x: Word): Word { x.RotateRight(6) ^ x.RotateRight(11) ^ x.RotateRight(25) }

  function SmallSigma0(x: Word): Word { x.RotateRight(7) ^ x.RotateRight(18) ^ (x >> 3) }

  function SmallSigma1(x: Word): Word { x.RotateRight(17) ^ x.RotateRight(19) ^ (x >> 10) }

  function Ch(x: Word, y: Word, z: Word): Word { (x & y) ^ (!x & z) }

  function Maj(x: Word, y: Word, z: Word): Word { (x & y) ^ (x & z) ^ (y & z) }

  /** The constants of section 4.2.2. */
  function K(t: nat): Word
    requires t < 64
  {
    if t < 16 then K0(t) else if t < 32 then K1(t - 16) else if t < 48 then K2(t - 32) else K3(t - 48)
  }

  function K0(t: nat): Word
    requires t < 16
  {
    [0x428a2f98, 0x71374491, 0xb5c0fbcf, 0xe9b5dba5, 0x3956c25b, 0x59f111f1, 0x923f82a4, 0xab1c5ed5,
     0xd807aa98, 0x12835b01, 0x243185be, 0x550c7dc3, 0x72be5d74, 0x80deb1fe, 0x9bdc06a7, 0xc19bf174][t]
  }

  function K1(t: nat): Word
    requires t < 16
  {
    [0xe49b69c1, 0xefbe4786, 0x0fc19dc6, 0x240ca1cc, 0x2de92c6f, 0x4a7484aa, 0x5cb0a9dc, 0x76f988da,
     0x983e5152, 0xa831c66d, 0xb00327c8, 0xbf597fc7, 0xc6e00bf3, 0xd5a79147, 0x06ca6351, 0x14292967][t]
  }

  function K2(t: nat): Word
    requires t < 16
  {
    [0x27b70a85, 0x2e1b2138, 0x4d2c6dfc, 0x53380d13, 0x650a7354, 0x766a0abb, 0x81c2c92e, 0x92722c85,
     0xa2bfe8a1, 0xa81a664b, 0xc24b8b70, 0xc76c51a3, 0xd192e819, 0xd6990624, 0xf40e3585, 0x106aa070][t]
  }

  function K3(t: nat): Word
    requires t < 16
  {
    [0x19a4c116, 0x1e376c08, 0x2748774c, 0x34b0bcb5, 0x391c0cb3, 0x4ed8aa4a, 0x5b9cca4f, 0x682e6ff3,
     0x748f82ee, 0x78a5636f, 0x84c87814, 0x8cc70208, 0x90befffa, 0xa4506ceb, 0xbef9a3f7, 0xc67178f2][t]
  }

  // ---- one block, section 6.2.2 ----

  function BigEndian(b0: Byte, b1: Byte, b2: Byte, b3: Byte): Word {
    ((b0 as Word) << 24) | ((b1 as Word) << 16) | ((b2 as Word) << 8) | (b3 as Word)
  }

  function ScheduleWord(w2: Word, w7: Word, w15: Word, w16: Word): Word {
    SmallSigma1(w2) + w7 + SmallSigma0(w15) + w16
  }

  /** The message schedule of 64 words. */
  function W(block: seq<Byte>, t: nat): Word
    requires |block| == BLOCK && t < 64
  {
    if t < 16 then BigEndian(block[4 * t], block[4 * t + 1], block[4 * t + 2], block[4 * t + 3])
    else ScheduleWord(W(block, t - 2), W(block, t - 7), W(block, t - 15), W(block, t - 16))
  }

  function Round(r: Registers, k: Word, w: Word): Registers {
    var t1 := r.h + BigSigma1(r.e) + Ch(r.e, r.f, r.g) + k + w;
    var t2 := BigSigma0(r.a) + Maj(r.a, r.b, r.c);
    Registers(t1 + t2, r.a, r.b, r.c, r.d + t1, r.e, r.f, r.g)
  }

  function Rounds(r: Registers, block: seq<Byte>, t: nat): Registers
    requires |block| == BLOCK && t <= 64
  {
    if t == 0 then r else Round(Rounds(r, block, t - 1), K(t - 1), W(block, t - 1))
  }

  function Load(s: State): Registers {
    Registers(s[0], s[1], s[2], s[3], s[4], s[5], s[6], s[7])
  }

  function Accumulate(s: State, r: Registers): State {
    [Plus(s[0], r.a), Plus(s[1], r.b), Plus(s[2], r.c), Plus(s[3], r.d),
     Plus(s[4], r.e), Plus(s[5], r.f), Plus(s[6], r.g), Plus(s[7], r.h)]
  }

  function Compress(s: State, block: seq<Byte>): State
    requires |block| == BLOCK
  {
    Accumulate(s, Rounds(Load(s), block, 64))
  }

  // ---- a whole message ----

  /** The hash value after the given blocks. */
  function Absorb(message: seq<Byte>): State
    requires |message| % BLOCK == 0
  {
    if message == [] then INITIAL
    else
      var n := |message| - BLOCK;
      Compress(Absorb(message[..n]), message[n..])
  }

  function Zeros(n: nat): (s: seq<Byte>)
    ensures |s| == n && forall i :: 0 <= i < n ==> s[i] == 0
  {
    seq(n, i => 0)
  }

  /** A 64-bit number, most significant byte first. Section 5.1.1 wants messages below 2^64 bits; longer ones count
      modulo 2^64 here. */
  function Length(bits: nat): (s: seq<Byte>)
    ensures |s| == 8
  {
    [LengthByte(bits, 0x100_0000_0000_0000), LengthByte(bits, 0x1_0000_0000_0000), LengthByte(bits, 0x100_0000_0000),
     LengthByte(bits, 0x1_0000_0000), LengthByte(bits, 0x100_0000), LengthByte(bits, 0x1_0000), LengthByte(bits, 0x100),
     LengthByte(bits, 1)]
  }

  function LengthByte(bits: nat, unit: nat): Byte
    requires unit > 0
  {
    (bits / unit % 256) as Byte
  }

  /** The smallest number of zero bytes that leaves room for the length in the last block. */
  function PadZeros(n: nat): (k: nat)
    ensures k < BLOCK && (n + 1 + k + 8) % BLOCK == 0
  {
    (119 - n % BLOCK) % BLOCK
  }

  function Padded(message: seq<Byte>): (s: seq<Byte>)
    ensures |s| % BLOCK == 0
  {
    message + [0x80] + Zeros(PadZeros(|message|)) + Length(8 * |message| % 0x1_0000_0000_0000_0000)
  }

  /** The words of a hash value, most significant byte first. */
  function Bytes(s: seq<Word>): (r: seq<Byte>)
    ensures |r| == 4 * |s|
  {
    if s == [] then [] else Bytes(s[..|s| - 1]) + WordBytes(s[|s| - 1])
  }

  function WordBytes(w: Word): (r: seq<Byte>)
    ensures |r| == 4
  {
    [((w >> 24) & 0xff) as Byte, ((w >> 16) & 0xff) as Byte, ((w >> 8) & 0xff) as Byte, (w & 0xff) as Byte]
  }

  function Digest(message: seq<Byte>): (d: seq<Byte>)
    ensures |d| == 32
  {
    Bytes(Absorb(Padded(message)))
  }
}
