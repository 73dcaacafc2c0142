/** HMAC over SHA-256, as section 2 of RFC 2104 defines it. */
module Hmac {
  import opened Sha256Standard
  import opened Sha256

  const INNER_PAD: Byte := 0x36
  const OUTER_PAD: Byte := 0x5c

  /** The key brought to the length of a block: hashed if it is longer, then filled up with zeros. */
  function BlockKey(key: seq<Byte>): (k: seq<Byte>)
    ensures |k| == BLOCK
  {
    var short := if |key| > BLOCK then Digest(key) else key;
    short + Zeros(BLOCK - |short|)
  }

  function Xored(k: seq<Byte>, pad: Byte): (r: seq<Byte>)
    ensures |r| == |k| && forall i :: 0 <= i < |k| ==> r[i] == k[i] ^ pad
  {
    seq(|k|, i requires 0 <= i < |k| => k[i] ^ pad)
  }

  function Tag(key: seq<Byte>, text: seq<Byte>): (t: seq<Byte>)
    ensures |t| == 32
  {
    Digest(Xored(BlockKey(key), OUTER_PAD) + Digest(Xored(BlockKey(key), INNER_PAD) + text))
  }

  function Repeated(c: char): (r: seq<Byte>)
    requires c < 256 as char
    ensures |r| == BLOCK
  {
    seq(BLOCK, i => (c as int) as Byte)
  }

  /** The pads themselves are what a key of zeros is turned into: 64 times the character 6 and 64 times a backslash. */
  lemma PadsAlone(text: seq<Byte>)
    ensures Tag([0], text) == Digest(Repeated('\\') + Digest(Repeated('6') + text))
  {
    var k := BlockKey([0]);
    assert forall i :: 0 <= i < BLOCK ==> k[i] == 0;
    ZeroXor(INNER_PAD);
    ZeroXor(OUTER_PAD);
    assert Xored(k, INNER_PAD) == Repeated('6') && Xored(k, OUTER_PAD) == Repeated('\\');
  }

  /** Both pads of a key of at most one block. */
  function Schedule(short: seq<Byte>): (r: seq<Byte>)
    requires |short| <= BLOCK
    ensures |r| == 2 * BLOCK
  {
    var k := short + Zeros(BLOCK - |short|);
    Xored(k, INNER_PAD) + Xored(k, OUTER_PAD)
  }

  /** The first `i` bytes of both halves are written. */
  predicate Filled(key: seq<Byte>, k: seq<Byte>, i: nat) {
    |key| == 2 * BLOCK && |k| == BLOCK && i <= BLOCK
    && forall j :: 0 <= j < i ==> key[j] == k[j] ^ INNER_PAD && key[BLOCK + j] == k[j] ^ OUTER_PAD
  }

  lemma FilledUp(key: seq<Byte>, short: seq<Byte>)
    requires |short| <= BLOCK && Filled(key, short + Zeros(BLOCK - |short|), BLOCK)
    ensures key == Schedule(short)
  {
    var k := short + Zeros(BLOCK - |short|);
    assert key[..BLOCK] == Xored(k, INNER_PAD);
    forall j | 0 <= j < BLOCK
      ensures key[BLOCK..][j] == Xored(k, OUTER_PAD)[j]
    {
      assert key[BLOCK..][j] == key[BLOCK + j];
    }
    assert key == key[..BLOCK] + key[BLOCK..];
  }

  lemma ZeroXor(pad: Byte)
    ensures 0 ^ pad == pad
  {
  }

  /** Writes both pads. The new key may lie in the array that is written, as long as it is never behind the place
      that is written: each of its bytes is still unchanged when it is read. */
  method Rekey(key: array<Byte>, newKey: array<Byte>, at: nat, keySize: nat)
    requires key.Length == 2 * BLOCK && keySize <= BLOCK && at + keySize <= newKey.Length
    requires newKey == key ==> 0 < at && at + keySize <= BLOCK
    modifies key
    ensures key[..] == Schedule(old(newKey[at..at + keySize]))
  {
    ghost var short := newKey[at..at + keySize];
    ghost var k := short + Zeros(BLOCK - |short|);
    for i := 0 to keySize
      invariant Filled(key[..], k, i)
      invariant forall j :: i <= j < keySize ==> newKey[at + j] == short[j]
    {
      key[i] := INNER_PAD ^ newKey[at + i];
      key[i + BLOCK] := OUTER_PAD ^ newKey[at + i];
      Commute(INNER_PAD, short[i]);
      Commute(OUTER_PAD, short[i]);
    }
    ZeroXor(INNER_PAD);
    ZeroXor(OUTER_PAD);
    for i := keySize to BLOCK
      invariant Filled(key[..], k, i)
    {
      key[i] := INNER_PAD;
      key[i + BLOCK] := OUTER_PAD;
    }
    FilledUp(key[..], short);
  }

  lemma Commute(a: Byte, b: Byte)
    ensures a ^ b == b ^ a
  {
  }

  function Short(key: seq<Byte>): (s: seq<Byte>)
    ensures |s| <= BLOCK && BlockKey(key) == s + Zeros(BLOCK - |s|)
  {
    if |key| > BLOCK then Digest(key) else key
  }

  lemma ScheduleHalves(k: seq<Byte>)
    ensures Schedule(Short(k))[..BLOCK] == Xored(BlockKey(k), INNER_PAD)
    ensures Schedule(Short(k))[BLOCK..] == Xored(BlockKey(k), OUTER_PAD)
  {
    hide Xored, BlockKey, Short;
  }

  class Mac {
    const hash: Hasher
    const key: array<Byte>

    ghost predicate Valid()
      reads this, hash
    {
      hash.Valid() && key.Length == 2 * BLOCK && key != hash.leftover
    }

    /** The key schedule of `k` is set up. */
    ghost predicate Keyed(k: seq<Byte>)
      reads this, hash, key
    {
      Valid() && key[..] == Schedule(Short(k))
    }

    /** A tag under the key `k` has been started, and `text` given so far. */
    ghost predicate Authenticating(k: seq<Byte>, text: seq<Byte>)
      reads this, hash, key, hash.iv, hash.leftover
    {
      Keyed(k) && hash.Hashed(Xored(BlockKey(k), INNER_PAD) + text)
    }

    constructor ()
      ensures Valid() && fresh(hash) && fresh(hash.iv) && fresh(hash.leftover) && fresh(key)
    {
      hash := new Hasher();
      key := new Byte[2 * BLOCK];
    }

    /** An empty key is refused. A long key is hashed into the middle of the schedule, which then is made from there. */
    method SetKey(newKey: array<Byte>, keySize: nat) returns (ok: bool)
      requires Valid() && keySize <= newKey.Length && newKey != key && newKey != hash.leftover
      modifies hash, hash.iv, hash.leftover, key
      ensures ok <==> keySize != 0
      ensures ok ==> Keyed(newKey[..keySize])
    {
      hide Schedule, Digest, Zeros;
      if keySize == 0 { return false; }
      var k := newKey[..keySize];
      if keySize <= BLOCK {
        assert newKey[0..keySize] == k;
        Rekey(key, newKey, 0, keySize);
      } else {
        HashKey(k);
        Rekey(key, key, 32, 32);
      }
      return true;
    }

    /** The digest of a long key goes to where the second half of the inner pad will be. */
    method HashKey(k: seq<Byte>)
      requires Valid()
      modifies hash, hash.iv, hash.leftover, key
      ensures Valid() && key[32..64] == Digest(k)
    {
      hide Schedule, Digest, Zeros, Whole, Absorb;
      hash.Init();
      hash.Update(k, []);
      assert [] + k == k;
      hash.Final(key, 32, k);
    }

    method Init(ghost k: seq<Byte>)
      requires Keyed(k)
      modifies hash, hash.iv, hash.leftover
      ensures Authenticating(k, [])
    {
      hide Schedule, Digest, Zeros, Xored, Short, BlockKey, Whole, Absorb;
      ScheduleHalves(k);
      hash.Init();
      hash.Update(key[..BLOCK], []);
      assert [] + key[..BLOCK] == Xored(BlockKey(k), INNER_PAD) + [];
    }

    method Update(data: seq<Byte>, ghost k: seq<Byte>, ghost text: seq<Byte>)
      requires Authenticating(k, text)
      modifies hash, hash.iv, hash.leftover
      ensures Authenticating(k, text + data)
    {
      hide Schedule, Digest, Zeros, Xored, Short, BlockKey, Whole, Absorb;
      hash.Update(data, Xored(BlockKey(k), INNER_PAD) + text);
      assert Xored(BlockKey(k), INNER_PAD) + text + data == Xored(BlockKey(k), INNER_PAD) + (text + data);
    }

    /** The tag; afterwards key and state are wiped. */
    method Final(tag: array<Byte>, tagLength: nat, ghost k: seq<Byte>, ghost text: seq<Byte>) returns (ok: bool)
      requires Authenticating(k, text) && tagLength <= tag.Length && tag != key && tag != hash.leftover
      modifies hash, hash.iv, hash.leftover, key, tag
      ensures ok <==> tagLength == 32
      ensures ok ==> tag[..32] == Tag(k, text) && tag[32..] == old(tag[32..]) && key[..] == Zeros(2 * BLOCK)
      ensures ok ==> Valid() && hash.leftover[..] == Zeros(BLOCK) && hash.iv[..] == ZERO_STATE
    {
      hide Schedule, Digest, Zeros, Xored, Short, BlockKey, Whole, Absorb;
      if tagLength != 32 { return false; }
      ghost var inner, outer := Xored(BlockKey(k), INNER_PAD), Xored(BlockKey(k), OUTER_PAD);
      ScheduleHalves(k);
      hash.Final(tag, 0, inner + text);
      assert tag[..32] == Digest(inner + text);
      hash.Init();
      hash.Update(key[BLOCK..], []);
      assert [] + outer == outer;
      hash.Update(tag[..32], outer);
      hash.Final(tag, 0, outer + Digest(inner + text));
      SetZero(key, 0, 2 * BLOCK);
      return true;
    }
  }
}
