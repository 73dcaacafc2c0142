/** Base64 with the alphabet and padding of section 4 of RFC 4648. */
module Base64 {
  type Byte = b: int | 0 <= b < 256

  const PAD: Byte := 61

  /** The alphabet. */
  function Chr(v: nat): (c: Byte)
    requires v < 64
  {
    if v < 26 then v + 65 else if v < 52 then v + 71 else if v < 62 then v - 4 else if v == 62 then 43 else 47
  }

  /** The value of a character; the padding counts as 64, and whatever is not in the alphabet as zero. */
  function Int(ch: Byte): (v: nat)
    ensures v <= 64
  {
    if ch == 43 then 62 else if ch == 47 then 63 else if ch == PAD then 64
    else if 47 < ch < 58 then ch + 4
    else if 64 < ch < 91 then ch - 65
    else if 96 < ch < 123 then ch - 97 + 26
    else 0
  }

  lemma IntChr(v: nat)
    requires v < 64
    ensures Int(Chr(v)) == v && Chr(v) != PAD
  {
  }

  const CAPITALS := "ABCDEFGHIJKLMNOPQRSTUVWXYZ"

  const SMALLS := "abcdefghijklmnopqrstuvwxyz"

  const OTHERS := "0123456789+/"

  /** Table 1 of RFC 4648. */
  lemma AlphabetIs(v: nat)
    requires v < 64
    ensures var c := (CAPITALS + SMALLS + OTHERS)[v] as int; Chr(v) == c && Int(c) == v
  {
    if v < 26 { Capitals(v); } else if v < 52 { Smalls(v - 26); } else { Others(v - 52); }
  }

  lemma Capitals(k: nat)
    requires k < 26
    ensures CAPITALS[k] as int == 65 + k
  {
    if k < 13 { assert k in {0, 1, 2, 3, 4, 5, 6, 7, 8, 9, 10, 11, 12}; }
    else { assert k in {13, 14, 15, 16, 17, 18, 19, 20, 21, 22, 23, 24, 25}; }
  }

  lemma Smalls(k: nat)
    requires k < 26
    ensures SMALLS[k] as int == 97 + k
  {
    if k < 13 { assert k in {0, 1, 2, 3, 4, 5, 6, 7, 8, 9, 10, 11, 12}; }
    else { assert k in {13, 14, 15, 16, 17, 18, 19, 20, 21, 22, 23, 24, 25}; }
  }

  lemma Others(k: nat)
    requires k < 12
    ensures OTHERS[k] as int == if k < 10 then 48 + k else if k == 10 then 43 else 47
  {
    assert k in {0, 1, 2, 3, 4, 5, 6, 7, 8, 9, 10, 11};
  }

  // ---- sizes ----

  method EncodedSize(inSize: nat) returns (size: nat)
    ensures size == 4 * ((inSize + 2) / 3)
    ensures forall data: seq<Byte> :: |data| == inSize ==> size == |Encoded(data)|
  {
    var j := 0;
    for i := 0 to inSize
      invariant j == (i + 2) / 3
    {
      if i % 3 == 0 { j := j + 1; }
    }
    return 4 * j;
  }

  function DecodedSize(inSize: nat): nat {
    3 * inSize / 4
  }

  // ---- groups ----

  /** Three bytes are 24 bits, four characters of six bits each. */
  function Group(a: Byte, b: Byte, c: Byte): (r: seq<Byte>)
    ensures |r| == 4
  {
    var bits := a * 0x1_0000 + b * 0x100 + c;
    [Chr(bits / 0x4_0000), Chr(bits / 0x1000 % 64), Chr(bits / 64 % 64), Chr(bits % 64)]
  }

  /** The last group, of one or two bytes, is filled up with zero bits and padding. */
  function LastGroup(rest: seq<Byte>): (r: seq<Byte>)
    requires 1 <= |rest| <= 2
    ensures |r| == 4
  {
    if |rest| == 1 then Group(rest[0], 0, 0)[..2] + [PAD, PAD] else Group(rest[0], rest[1], 0)[..3] + [PAD]
  }

  /** The first `k` groups of three bytes. */
  function EncodedGroups(data: seq<Byte>, k: nat): (r: seq<Byte>)
    requires 3 * k <= |data|
    ensures |r| == 4 * k
  {
    if k == 0 then []
    else EncodedGroups(data, k - 1) + Group(data[3 * k - 3], data[3 * k - 2], data[3 * k - 1])
  }

  function Encoded(data: seq<Byte>): (r: seq<Byte>)
    ensures |r| == 4 * ((|data| + 2) / 3)
  {
    var k := |data| / 3;
    EncodedGroups(data, k) + if |data| % 3 == 0 then [] else LastGroup(data[3 * k..])
  }

  /** What a group of four characters decodes to. */
  function Ungroup(s: seq<Byte>): (r: seq<Byte>)
    requires |s| == 4
    ensures 1 <= |r| <= 3
  {
    var a, b, c, d := Int(s[0]), Int(s[1]), Int(s[2]), Int(s[3]);
    var first := (a * 4 + b / 16 % 4) % 256;
    var second := (b % 16 * 16 + c / 4 % 16) % 256;
    var third := (c % 4 * 64 + d) % 256;
    if c == 64 then [first] else if d == 64 then [first, second] else [first, second, third]
  }

  function DecodedGroups(s: seq<Byte>, k: nat): (r: seq<Byte>)
    requires 4 * k <= |s|
    ensures k <= |r| <= 3 * k
  {
    if k == 0 then [] else DecodedGroups(s, k - 1) + Ungroup(s[4 * k - 4..4 * k])
  }

  /** Four characters at a time; an incomplete group at the end is ignored. */
  function Decoded(s: seq<Byte>): (r: seq<Byte>)
    ensures |r| <= DecodedSize(|s|)
  {
    DecodedGroups(s, |s| / 4)
  }

  // ---- the round trip ----

  /** The six-bit parts of 24 bits, by the bits of the three bytes. */
  lemma SixBits(a1: nat, a0: nat, b1: nat, b0: nat, c1: nat, c0: nat, bits: nat)
    requires a1 < 64 && a0 < 4 && b1 < 16 && b0 < 16 && c1 < 4 && c0 < 64
    requires bits == (4 * a1 + a0) * 0x1_0000 + (16 * b1 + b0) * 0x100 + (64 * c1 + c0)
    ensures bits / 0x4_0000 == a1 && bits / 0x1000 % 64 == a0 * 16 + b1
    ensures bits / 64 % 64 == b0 * 4 + c1 && bits % 64 == c0
  {
    assert bits / 64 == a1 * 0x1000 + (a0 * 16 + b1) * 64 + (b0 * 4 + c1);
    assert bits / 0x1000 == a1 * 64 + (a0 * 16 + b1);
  }

  lemma GroupParts(a: Byte, b: Byte, c: Byte)
    ensures 0 <= a % 4 * 16 + b / 16 < 64 && 0 <= b % 16 * 4 + c / 64 < 64
    ensures Group(a, b, c) == [Chr(a / 4), Chr(a % 4 * 16 + b / 16), Chr(b % 16 * 4 + c / 64), Chr(c % 64)]
  {
    hide Chr;
    SixBits(a / 4, a % 4, b / 16, b % 16, c / 64, c % 64, a * 0x1_0000 + b * 0x100 + c);
  }

  lemma UngroupGroup(a: Byte, b: Byte, c: Byte)
    ensures Ungroup(Group(a, b, c)) == [a, b, c]
  {
    hide Chr, Int;
    GroupParts(a, b, c);
    UngroupValues(Group(a, b, c), a, b, c);
  }

  lemma UngroupLast(rest: seq<Byte>)
    requires 1 <= |rest| <= 2
    ensures Ungroup(LastGroup(rest)) == rest
  {
    hide Chr, Int;
    var a: int, b: int := rest[0], if |rest| == 2 then rest[1] else 0;
    GroupParts(a, b, 0);
    UngroupValues(LastGroup(rest), a, b, 0);
  }

  lemma UngroupValues(s: seq<Byte>, a: Byte, b: Byte, c: Byte)
    requires |s| == 4 && s[0] == Chr(a / 4) && s[1] == Chr(a % 4 * 16 + b / 16)
    requires s[2] == PAD || s[2] == Chr(b % 16 * 4 + c / 64)
    requires s[3] == PAD || s[3] == Chr(c % 64)
    ensures Chr(b % 16 * 4 + c / 64) != PAD && Chr(c % 64) != PAD
    ensures Ungroup(s) == if s[2] == PAD then [a] else if s[3] == PAD then [a, b] else [a, b, c]
  {
    hide Chr, Int;
    IntChr(a / 4);
    IntChr(a % 4 * 16 + b / 16);
    IntChr(b % 16 * 4 + c / 64);
    IntChr(c % 64);
    PadIs();
    Rejoin(a, b, c);
  }

  lemma PadIs()
    ensures Int(PAD) == 64
  {
  }

  lemma Rejoin(a: Byte, b: Byte, c: Byte)
    ensures var v1, v2 := a % 4 * 16 + b / 16, b % 16 * 4 + c / 64;
            && (a / 4 * 4 + v1 / 16 % 4) % 256 == a && (v1 % 16 * 16 + v2 / 4 % 16) % 256 == b && (v2 % 4 * 64 + c % 64) % 256 == c
  {
  }

  lemma {:induction false} GroupsRoundTrip(data: seq<Byte>, s: seq<Byte>, k: nat)
    requires 3 * k <= |data| && 4 * k <= |s| && s[..4 * k] == EncodedGroups(data, k)
    ensures DecodedGroups(s, k) == data[..3 * k]
    decreases k
  {
    hide Group, Ungroup;
    if k > 0 {
      assert s[..4 * k][..4 * k - 4] == s[..4 * k - 4];
      assert s[..4 * k][4 * k - 4..] == s[4 * k - 4..4 * k];
      GroupsRoundTrip(data, s, k - 1);
      UngroupGroup(data[3 * k - 3], data[3 * k - 2], data[3 * k - 1]);
      assert data[..3 * k] == data[..3 * k - 3] + [data[3 * k - 3], data[3 * k - 2], data[3 * k - 1]];
    }
  }

  /** Decoding undoes encoding, for every byte string. */
  lemma RoundTrip(data: seq<Byte>)
    ensures Decoded(Encoded(data)) == data
  {
    hide Group, LastGroup, Ungroup, EncodedGroups;
    var k, s := |data| / 3, Encoded(data);
    assert s[..4 * k] == EncodedGroups(data, k);
    GroupsRoundTrip(data, s, k);
    if |data| % 3 == 0 {
      assert data[..3 * k] == data;
    } else {
      var rest := data[3 * k..];
      assert s[4 * k..4 * k + 4] == LastGroup(rest);
      UngroupLast(rest);
      assert data == data[..3 * k] + rest;
    }
  }

  // ---- buffers ----

  /** The first `k` bytes of the buffer are `r`. */
  predicate Holds(out: seq<Byte>, k: nat, r: seq<Byte>) {
    |r| == k <= |out| && out[..k] == r
  }

  method Put4(out: array<Byte>, k: nat, group: seq<Byte>, ghost r: seq<Byte>)
    requires |group| == 4 && k + 4 <= out.Length && Holds(out[..], k, r)
    modifies out
    ensures Holds(out[..], k + 4, r + group)
    ensures forall i :: k + 4 <= i < out.Length ==> out[i] == old(out[i])
  {
    out[k], out[k + 1], out[k + 2], out[k + 3] := group[0], group[1], group[2], group[3];
  }

  /** One whole group of three bytes. */
  method EncodeGroup(out: array<Byte>, k: nat, a: Byte, b: Byte, c: Byte, ghost r: seq<Byte>)
    requires k + 4 <= out.Length && Holds(out[..], k, r)
    modifies out
    ensures Holds(out[..], k + 4, r + Group(a, b, c))
    ensures forall i :: k + 4 <= i < out.Length ==> out[i] == old(out[i])
  {
    hide Chr, Group;
    GroupParts(a, b, c);
    Put4(out, k, [Chr(a / 4), Chr(a % 4 * 16 + b / 16), Chr(b % 16 * 4 + c / 64), Chr(c % 64)], r);
  }

  /** The `j` bytes that are left. */
  method EncodeLast(out: array<Byte>, k: nat, a: Byte, b: Byte, j: nat, ghost rest: seq<Byte>, ghost r: seq<Byte>)
    requires k + 4 <= out.Length && Holds(out[..], k, r)
    requires j == |rest| && 1 <= j <= 2 && rest[0] == a && b == if j == 2 then rest[1] else 0
    modifies out
    ensures Holds(out[..], k + 4, r + LastGroup(rest))
    ensures forall i :: k + 4 <= i < out.Length ==> out[i] == old(out[i])
  {
    hide Chr, LastGroup;
    LastParts(rest, a, b);
    var third := if j == 2 then Chr(b % 16 * 4) else PAD;
    Put4(out, k, [Chr(a / 4), Chr(a % 4 * 16 + b / 16), third, PAD], r);
  }

  lemma NextGroup(data: seq<Byte>, k: nat, a: Byte, b: Byte, c: Byte)
    requires 3 * k + 3 <= |data| && a == data[3 * k] && b == data[3 * k + 1] && c == data[3 * k + 2]
    ensures EncodedGroups(data, k + 1) == EncodedGroups(data, k) + Group(a, b, c)
  {
    hide Group;
  }

  /** Encodes into a buffer that has room for the text and a terminating NUL. */
  method Encode(input: seq<Byte>, out: array<Byte>) returns (k: nat)
    requires |Encoded(input)| + 1 <= out.Length
    modifies out
    ensures k == |Encoded(input)| && out[..k] == Encoded(input) && out[k] == 0
    ensures forall i :: k < i < out.Length ==> out[i] == old(out[i])
  {
    hide Group, LastGroup, EncodedGroups;
    k := 0;
    var s := new Byte[3];
    var j := 0;
    ghost var groups := 0;
    NoGroups(input);
    for i := 0 to |input|
      invariant i == 3 * groups + j && j < 3 && k == 4 * groups && Holds(out[..], k, EncodedGroups(input, groups))
      invariant (j > 0 ==> s[0] == input[3 * groups]) && (j > 1 ==> s[1] == input[3 * groups + 1])
      invariant forall x :: |Encoded(input)| <= x < out.Length ==> out[x] == old(out[x])
    {
      s[j] := input[i];
      j := j + 1;
      if j == 3 {
        NextGroup(input, groups, s[0], s[1], s[2]);
        EncodeGroup(out, k, s[0], s[1], s[2], EncodedGroups(input, groups));
        j, k, groups := 0, k + 4, groups + 1;
      }
    }
    if j != 0 {
      if j == 1 { s[1] := 0; }
      EncodeLast(out, k, s[0], s[1], j, input[3 * groups..], EncodedGroups(input, groups));
      k := k + 4;
    }
    out[k] := 0;
  }

  lemma NoGroups(data: seq<Byte>)
    ensures EncodedGroups(data, 0) == []
  {
  }

  lemma LastParts(rest: seq<Byte>, a: Byte, b: Byte)
    requires 1 <= |rest| <= 2 && rest[0] == a && b == if |rest| == 2 then rest[1] else 0
    ensures 0 <= a % 4 * 16 + b / 16 < 64 && 0 <= b % 16 * 4 < 64
    ensures LastGroup(rest) == [Chr(a / 4), Chr(a % 4 * 16 + b / 16), if |rest| == 2 then Chr(b % 16 * 4) else PAD, PAD]
  {
    hide Chr, Group;
    GroupParts(a, b, 0);
  }

  /** Decodes any text into a buffer of `DecodedSize` bytes. */
  method Decode(input: seq<Byte>, out: array<Byte>) returns (k: nat)
    requires DecodedSize(|input|) <= out.Length
    modifies out
    ensures k == |Decoded(input)| && out[..k] == Decoded(input)
    ensures forall i :: DecodedSize(|input|) <= i < out.Length ==> out[i] == old(out[i])
  {
    hide Int, Ungroup, DecodedGroups, DecodedSize;
    k := 0;
    var s := new nat[4];
    var j := 0;
    ghost var groups := 0;
    NothingDecoded(input);
    for i := 0 to |input|
      invariant i == 4 * groups + j && j < 4 && Holds(out[..], k, DecodedGroups(input, groups))
      invariant forall x :: 0 <= x < j ==> s[x] == Int(input[4 * groups + x])
      invariant forall x :: DecodedSize(|input|) <= x < out.Length ==> out[x] == old(out[x])
    {
      s[j] := Int(input[i]);
      j := j + 1;
      if j == 4 {
        GroupFits(|input|, groups);
        NextDecoded(input, groups);
        k := PutGroup(out, k, s[0], s[1], s[2], s[3], input[4 * groups..4 * groups + 4], DecodedGroups(input, groups));
        j, groups := 0, groups + 1;
      }
    }
  }

  lemma NothingDecoded(s: seq<Byte>)
    ensures DecodedGroups(s, 0) == []
  {
  }

  lemma NextDecoded(s: seq<Byte>, k: nat)
    requires 4 * k + 4 <= |s|
    ensures DecodedGroups(s, k + 1) == DecodedGroups(s, k) + Ungroup(s[4 * k..4 * k + 4])
  {
    hide Ungroup;
  }

  lemma GroupFits(n: nat, k: nat)
    requires 4 * k + 4 <= n
    ensures 3 * k + 3 <= DecodedSize(n)
  {
  }

  /** One group of four values. */
  method PutGroup(out: array<Byte>, at: nat, s0: nat, s1: nat, s2: nat, s3: nat, ghost s: seq<Byte>, ghost r: seq<Byte>)
    returns (k: nat)
    requires |s| == 4 && s0 == Int(s[0]) && s1 == Int(s[1]) && s2 == Int(s[2]) && s3 == Int(s[3])
    requires at + 3 <= out.Length && Holds(out[..], at, r)
    modifies out
    ensures Holds(out[..], k, r + Ungroup(s))
    ensures forall i :: at + 3 <= i < out.Length ==> out[i] == old(out[i])
  {
    hide Int;
    k := at;
    out[k] := (s0 * 4 + s1 / 16 % 4) % 256;
    if s2 != 64 {
      out[k + 1] := (s1 % 16 * 16 + s2 / 4 % 16) % 256;
      if s3 != 64 {
        out[k + 2] := (s2 % 4 * 64 + s3) % 256;
        k := k + 3;
      } else {
        k := k + 2;
      }
    } else {
      k := k + 1;
    }
  }

  // ---- the examples of RFC 4648, section 10 ----

  function Ascii(s: string): (r: seq<Byte>)
    requires forall i :: 0 <= i < |s| ==> s[i] < 128 as char
    ensures |r| == |s|
  {
    seq(|s|, i requires 0 <= i < |s| => s[i] as int)
  }

  lemma Examples()
    ensures Encoded([]) == [] && Encoded(Ascii("f")) == Ascii("Zg==")
    ensures Encoded(Ascii("fo")) == Ascii("Zm8=") && Encoded(Ascii("foo")) == Ascii("Zm9v")
  {
    hide Group, Encoded;
    assert Encoded([]) == [] by { NothingEncoded(); }
    Groups();
    OneByte(102);
    TwoBytes(102, 111);
    ThreeBytes(102, 111, 111);
    assert Ascii("f") == [102] && Ascii("fo") == [102, 111] && Ascii("foo") == [102, 111, 111];
  }

  lemma Groups()
    ensures Group(102, 0, 0) == [90, 103, 65, 65] && Group(102, 111, 0) == [90, 109, 56, 65] && Group(102, 111, 111) == [90, 109, 57, 118]
  {
  }

  lemma NothingEncoded()
    ensures Encoded([]) == []
  {
  }

  lemma OneByte(a: Byte)
    ensures Encoded([a]) == Group(a, 0, 0)[..2] + [PAD, PAD]
  {
    hide Group;
    assert [a][0..] == [a];
  }

  lemma TwoBytes(a: Byte, b: Byte)
    ensures Encoded([a, b]) == Group(a, b, 0)[..3] + [PAD]
  {
    hide Group;
    assert [a, b][0..] == [a, b];
  }

  lemma ThreeBytes(a: Byte, b: Byte, c: Byte)
    ensures Encoded([a, b, c]) == Group(a, b, c)
  {
    hide Group;
    assert EncodedGroups([a, b, c], 1) == EncodedGroups([a, b, c], 0) + Group(a, b, c);
  }
}
