/** The first example of FIPS 180-4, computed: the digest of the three characters abc, through the words of the schedule and
    the working variables after every round. */
module KnownDigest {
  import opened Sha256Standard

  const ABC: seq<Byte> := [0x61, 0x62, 0x63]

  const EXPECTED: seq<Byte> :=
    [0xba, 0x78, 0x16, 0xbf, 0x8f, 0x01, 0xcf, 0xea, 0x41, 0x41, 0x40, 0xde, 0x5d, 0xae, 0x22, 0x23,
     0xb0, 0x03, 0x61, 0xa3, 0x96, 0x17, 0x7a, 0x9c, 0xb4, 0x10, 0xff, 0x61, 0xf2, 0x00, 0x15, 0xad]

  // ---- the schedule ----

  lemma FirstWords(b: seq<Byte>, t: nat, w: Word)
    requires |b| == BLOCK && t < 16 && BigEndian(b[4 * t], b[4 * t + 1], b[4 * t + 2], b[4 * t + 3]) == w
    ensures W(b, t) == w
  {
  }

  lemma Next(b: seq<Byte>, t: nat, w2: Word, w7: Word, w15: Word, w16: Word, w: Word)
    requires |b| == BLOCK && 16 <= t < 64 && W(b, t - 2) == w2 && W(b, t - 7) == w7 && W(b, t - 15) == w15 && W(b, t - 16) == w16
    requires ScheduleWord(w2, w7, w15, w16) == w
    ensures W(b, t) == w
  {
    hide ScheduleWord;
  }

  ghost predicate IsBlock(b: seq<Byte>) {
    && |b| == BLOCK && b[0] == 0x61 && b[1] == 0x62 && b[2] == 0x63 && b[3] == 0x80 && b[63] == 24
    && forall i :: 4 <= i < 63 ==> b[i] == 0
  }

  lemma Words0(b: seq<Byte>)
    requires |b| == BLOCK && IsBlock(b)
    ensures W(b, 0) == 0x61626380 && W(b, 1) == 0x00000000 && W(b, 2) == 0x00000000 && W(b, 3) == 0x00000000
    ensures W(b, 4) == 0x00000000 && W(b, 5) == 0x00000000 && W(b, 6) == 0x00000000 && W(b, 7) == 0x00000000
    ensures W(b, 8) == 0x00000000 && W(b, 9) == 0x00000000 && W(b, 10) == 0x00000000 && W(b, 11) == 0x00000000
    ensures W(b, 12) == 0x00000000 && W(b, 13) == 0x00000000 && W(b, 14) == 0x00000000 && W(b, 15) == 0x00000018
  {
    hide W;
    FirstWords(b, 0, 0x61626380);
    FirstWords(b, 1, 0x00000000);
    FirstWords(b, 2, 0x00000000);
    FirstWords(b, 3, 0x00000000);
    FirstWords(b, 4, 0x00000000);
    FirstWords(b, 5, 0x00000000);
    FirstWords(b, 6, 0x00000000);
    FirstWords(b, 7, 0x00000000);
    FirstWords(b, 8, 0x00000000);
    FirstWords(b, 9, 0x00000000);
    FirstWords(b, 10, 0x00000000);
    FirstWords(b, 11, 0x00000000);
    FirstWords(b, 12, 0x00000000);
    FirstWords(b, 13, 0x00000000);
    FirstWords(b, 14, 0x00000000);
    FirstWords(b, 15, 0x00000018);
  }

  lemma Words1(b: seq<Byte>)
    requires |b| == BLOCK && IsBlock(b)
    ensures W(b, 16) == 0x61626380 && W(b, 17) == 0x000f0000 && W(b, 18) == 0x7da86405 && W(b, 19) == 0x600003c6
    ensures W(b, 20) == 0x3e9d7b78 && W(b, 21) == 0x0183fc00 && W(b, 22) == 0x12dcbfdb && W(b, 23) == 0xe2e2c38e
    ensures W(b, 24) == 0xc8215c1a && W(b, 25) == 0xb73679a2 && W(b, 26) == 0xe5bc3909 && W(b, 27) == 0x32663c5b
    ensures W(b, 28) == 0x9d209d67 && W(b, 29) == 0xec8726cb && W(b, 30) == 0x702138a4 && W(b, 31) == 0xd3b7973b
  {
    hide W, IsBlock, BigEndian;
    Words0(b);
    Next(b, 16, 0x00000000, 0x00000000, 0x00000000, 0x61626380, 0x61626380);
    Next(b, 17, 0x00000018, 0x00000000, 0x00000000, 0x00000000, 0x000f0000);
    Next(b, 18, 0x61626380, 0x00000000, 0x00000000, 0x00000000, 0x7da86405);
    Next(b, 19, 0x000f0000, 0x00000000, 0x00000000, 0x00000000, 0x600003c6);
    Next(b, 20, 0x7da86405, 0x00000000, 0x00000000, 0x00000000, 0x3e9d7b78);
    Next(b, 21, 0x600003c6, 0x00000000, 0x00000000, 0x00000000, 0x0183fc00);
    Next(b, 22, 0x3e9d7b78, 0x00000018, 0x00000000, 0x00000000, 0x12dcbfdb);
    Next(b, 23, 0x0183fc00, 0x61626380, 0x00000000, 0x00000000, 0xe2e2c38e);
    Next(b, 24, 0x12dcbfdb, 0x000f0000, 0x00000000, 0x00000000, 0xc8215c1a);
    Next(b, 25, 0xe2e2c38e, 0x7da86405, 0x00000000, 0x00000000, 0xb73679a2);
    Next(b, 26, 0xc8215c1a, 0x600003c6, 0x00000000, 0x00000000, 0xe5bc3909);
    Next(b, 27, 0xb73679a2, 0x3e9d7b78, 0x00000000, 0x00000000, 0x32663c5b);
    Next(b, 28, 0xe5bc3909, 0x0183fc00, 0x00000000, 0x00000000, 0x9d209d67);
    Next(b, 29, 0x32663c5b, 0x12dcbfdb, 0x00000000, 0x00000000, 0xec8726cb);
    Next(b, 30, 0x9d209d67, 0xe2e2c38e, 0x00000018, 0x00000000, 0x702138a4);
    Next(b, 31, 0xec8726cb, 0xc8215c1a, 0x61626380, 0x00000018, 0xd3b7973b);
  }

  lemma Words2(b: seq<Byte>)
    requires |b| == BLOCK && IsBlock(b)
    ensures W(b, 32) == 0x93f5997f && W(b, 33) == 0x3b68ba73 && W(b, 34) == 0xaff4ffc1 && W(b, 35) == 0xf10a5c62
    ensures W(b, 36) == 0x0a8b3996 && W(b, 37) == 0x72af830a && W(b, 38) == 0x9409e33e && W(b, 39) == 0x24641522
    ensures W(b, 40) == 0x9f47bf94 && W(b, 41) == 0xf0a64f5a && W(b, 42) == 0x3e246a79 && W(b, 43) == 0x27333ba3
    ensures W(b, 44) == 0x0c4763f2 && W(b, 45) == 0x840abf27 && W(b, 46) == 0x7a290d5d && W(b, 47) == 0x065c43da
  {
    hide W, IsBlock, BigEndian;
    Words1(b);
    Next(b, 32, 0x702138a4, 0xb73679a2, 0x000f0000, 0x61626380, 0x93f5997f);
    Next(b, 33, 0xd3b7973b, 0xe5bc3909, 0x7da86405, 0x000f0000, 0x3b68ba73);
    Next(b, 34, 0x93f5997f, 0x32663c5b, 0x600003c6, 0x7da86405, 0xaff4ffc1);
    Next(b, 35, 0x3b68ba73, 0x9d209d67, 0x3e9d7b78, 0x600003c6, 0xf10a5c62);
    Next(b, 36, 0xaff4ffc1, 0xec8726cb, 0x0183fc00, 0x3e9d7b78, 0x0a8b3996);
    Next(b, 37, 0xf10a5c62, 0x702138a4, 0x12dcbfdb, 0x0183fc00, 0x72af830a);
    Next(b, 38, 0x0a8b3996, 0xd3b7973b, 0xe2e2c38e, 0x12dcbfdb, 0x9409e33e);
    Next(b, 39, 0x72af830a, 0x93f5997f, 0xc8215c1a, 0xe2e2c38e, 0x24641522);
    Next(b, 40, 0x9409e33e, 0x3b68ba73, 0xb73679a2, 0xc8215c1a, 0x9f47bf94);
    Next(b, 41, 0x24641522, 0xaff4ffc1, 0xe5bc3909, 0xb73679a2, 0xf0a64f5a);
    Next(b, 42, 0x9f47bf94, 0xf10a5c62, 0x32663c5b, 0xe5bc3909, 0x3e246a79);
    Next(b, 43, 0xf0a64f5a, 0x0a8b3996, 0x9d209d67, 0x32663c5b, 0x27333ba3);
    Next(b, 44, 0x3e246a79, 0x72af830a, 0xec8726cb, 0x9d209d67, 0x0c4763f2);
    Next(b, 45, 0x27333ba3, 0x9409e33e, 0x702138a4, 0xec8726cb, 0x840abf27);
    Next(b, 46, 0x0c4763f2, 0x24641522, 0xd3b7973b, 0x702138a4, 0x7a290d5d);
    Next(b, 47, 0x840abf27, 0x9f47bf94, 0x93f5997f, 0xd3b7973b, 0x065c43da);
  }

  lemma Words3(b: seq<Byte>)
    requires |b| == BLOCK && IsBlock(b)
    ensures W(b, 48) == 0xfb3e89cb && W(b, 49) == 0xcc7617db && W(b, 50) == 0xb9e66c34 && W(b, 51) == 0xa9993667
    ensures W(b, 52) == 0x84badedd && W(b, 53) == 0xc21462bc && W(b, 54) == 0x1487472c && W(b, 55) == 0xb20f7a99
    ensures W(b, 56) == 0xef57b9cd && W(b, 57) == 0xebe6b238 && W(b, 58) == 0x9fe3095e && W(b, 59) == 0x78bc8d4b
    ensures W(b, 60) == 0xa43fcf15 && W(b, 61) == 0x668b2ff8 && W(b, 62) == 0xeeaba2cc && W(b, 63) == 0x12b1edeb
  {
    hide W, IsBlock, BigEndian;
    Words2(b);
    Next(b, 48, 0x7a290d5d, 0xf0a64f5a, 0x3b68ba73, 0x93f5997f, 0xfb3e89cb);
    Next(b, 49, 0x065c43da, 0x3e246a79, 0xaff4ffc1, 0x3b68ba73, 0xcc7617db);
    Next(b, 50, 0xfb3e89cb, 0x27333ba3, 0xf10a5c62, 0xaff4ffc1, 0xb9e66c34);
    Next(b, 51, 0xcc7617db, 0x0c4763f2, 0x0a8b3996, 0xf10a5c62, 0xa9993667);
    Next(b, 52, 0xb9e66c34, 0x840abf27, 0x72af830a, 0x0a8b3996, 0x84badedd);
    Next(b, 53, 0xa9993667, 0x7a290d5d, 0x9409e33e, 0x72af830a, 0xc21462bc);
    Next(b, 54, 0x84badedd, 0x065c43da, 0x24641522, 0x9409e33e, 0x1487472c);
    Next(b, 55, 0xc21462bc, 0xfb3e89cb, 0x9f47bf94, 0x24641522, 0xb20f7a99);
    Next(b, 56, 0x1487472c, 0xcc7617db, 0xf0a64f5a, 0x9f47bf94, 0xef57b9cd);
    Next(b, 57, 0xb20f7a99, 0xb9e66c34, 0x3e246a79, 0xf0a64f5a, 0xebe6b238);
    Next(b, 58, 0xef57b9cd, 0xa9993667, 0x27333ba3, 0x3e246a79, 0x9fe3095e);
    Next(b, 59, 0xebe6b238, 0x84badedd, 0x0c4763f2, 0x27333ba3, 0x78bc8d4b);
    Next(b, 60, 0x9fe3095e, 0xc21462bc, 0x840abf27, 0x0c4763f2, 0xa43fcf15);
    Next(b, 61, 0x78bc8d4b, 0x1487472c, 0x7a290d5d, 0x840abf27, 0x668b2ff8);
    Next(b, 62, 0xa43fcf15, 0xb20f7a99, 0x065c43da, 0x7a290d5d, 0xeeaba2cc);
    Next(b, 63, 0x668b2ff8, 0xef57b9cd, 0xfb3e89cb, 0x065c43da, 0x12b1edeb);
  }

  // ---- the rounds ----

  lemma After(b: seq<Byte>, t: nat, r: Registers, k: Word, w: Word, a: Word, e: Word) returns (s: Registers)
    requires |b| == BLOCK && t < 64 && Rounds(Load(INITIAL), b, t) == r && K(t) == k && W(b, t) == w
    requires Round(r, k, w) == Registers(a, r.a, r.b, r.c, e, r.e, r.f, r.g)
    ensures s == Registers(a, r.a, r.b, r.c, e, r.e, r.f, r.g) && Rounds(Load(INITIAL), b, t + 1) == s
  {
    hide Round, K, W;
    s := Round(r, k, w);
  }

  lemma Rounds0(b: seq<Byte>)
    requires |b| == BLOCK && IsBlock(b)
    ensures Rounds(Load(INITIAL), b, 8) ==
      Registers(0x85a07b5f, 0xe5030380, 0x2b4209f5, 0x04409a6a, 0x0c657a79, 0x9b27a401, 0x714260ad, 0x43ada245)
  {
    hide W, IsBlock, Rounds, Load;
    Words0(b);
    NoRounds(b);
    var r :=
      Registers(0x6a09e667, 0xbb67ae85, 0x3c6ef372, 0xa54ff53a, 0x510e527f, 0x9b05688c, 0x1f83d9ab, 0x5be0cd19);
    r := After(b, 0, r, 0x428a2f98, 0x61626380, 0x5d6aebcd, 0xfa2a4622);
    r := After(b, 1, r, 0x71374491, 0x00000000, 0x5a6ad9ad, 0x78ce7989);
    r := After(b, 2, r, 0xb5c0fbcf, 0x00000000, 0xc8c347a7, 0xf92939eb);
    r := After(b, 3, r, 0xe9b5dba5, 0x00000000, 0xd550f666, 0x24e00850);
    r := After(b, 4, r, 0x3956c25b, 0x00000000, 0x04409a6a, 0x43ada245);
    r := After(b, 5, r, 0x59f111f1, 0x00000000, 0x2b4209f5, 0x714260ad);
    r := After(b, 6, r, 0x923f82a4, 0x00000000, 0xe5030380, 0x9b27a401);
    r := After(b, 7, r, 0xab1c5ed5, 0x00000000, 0x85a07b5f, 0x0c657a79);
  }

  lemma Rounds1(b: seq<Byte>)
    requires |b| == BLOCK && IsBlock(b)
    ensures Rounds(Load(INITIAL), b, 16) ==
      Registers(0xb0fa238e, 0xc0645fde, 0xd932eb16, 0x87912990, 0x07590dcd, 0x0b92f20c, 0x745a48de, 0x1e578218)
  {
    hide W, IsBlock, Rounds, Load;
    Words0(b);
    Rounds0(b);
    var r :=
      Registers(0x85a07b5f, 0xe5030380, 0x2b4209f5, 0x04409a6a, 0x0c657a79, 0x9b27a401, 0x714260ad, 0x43ada245);
    r := After(b, 8, r, 0xd807aa98, 0x00000000, 0x8e04ecb9, 0x32ca2d8c);
    r := After(b, 9, r, 0x12835b01, 0x00000000, 0x8c87346b, 0x1cc92596);
    r := After(b, 10, r, 0x243185be, 0x00000000, 0x4798a3f4, 0x436b23e8);
    r := After(b, 11, r, 0x550c7dc3, 0x00000000, 0xf71fc5a9, 0x816fd6e9);
    r := After(b, 12, r, 0x72be5d74, 0x00000000, 0x87912990, 0x1e578218);
    r := After(b, 13, r, 0x80deb1fe, 0x00000000, 0xd932eb16, 0x745a48de);
    r := After(b, 14, r, 0x9bdc06a7, 0x00000000, 0xc0645fde, 0x0b92f20c);
    r := After(b, 15, r, 0xc19bf174, 0x00000018, 0xb0fa238e, 0x07590dcd);
  }

  lemma Rounds2(b: seq<Byte>)
    requires |b| == BLOCK && IsBlock(b)
    ensures Rounds(Load(INITIAL), b, 24) ==
      Registers(0xc5d53d8d, 0xa7a3623f, 0xc2606d6d, 0x9dc68b63, 0xaa47c347, 0x49f5114a, 0xe1257970, 0x8ada8930)
  {
    hide W, IsBlock, Rounds, Load;
    Words1(b);
    Rounds1(b);
    var r :=
      Registers(0xb0fa238e, 0xc0645fde, 0xd932eb16, 0x87912990, 0x07590dcd, 0x0b92f20c, 0x745a48de, 0x1e578218);
    r := After(b, 16, r, 0xe49b69c1, 0x61626380, 0x21da9a9b, 0x8034229c);
    r := After(b, 17, r, 0xefbe4786, 0x000f0000, 0xc2fbd9d1, 0x846ee454);
    r := After(b, 18, r, 0x0fc19dc6, 0x7da86405, 0xfe777bbf, 0xcc899961);
    r := After(b, 19, r, 0x240ca1cc, 0x600003c6, 0xe1f20c33, 0xb0638179);
    r := After(b, 20, r, 0x2de92c6f, 0x3e9d7b78, 0x9dc68b63, 0x8ada8930);
    r := After(b, 21, r, 0x4a7484aa, 0x0183fc00, 0xc2606d6d, 0xe1257970);
    r := After(b, 22, r, 0x5cb0a9dc, 0x12dcbfdb, 0xa7a3623f, 0x49f5114a);
    r := After(b, 23, r, 0x76f988da, 0xe2e2c38e, 0xc5d53d8d, 0xaa47c347);
  }

  lemma Rounds3(b: seq<Byte>)
    requires |b| == BLOCK && IsBlock(b)
    ensures Rounds(Load(INITIAL), b, 32) ==
      Registers(0x73b33bf5, 0xea992a22, 0xa0060b30, 0x363482c9, 0xba591112, 0x0109ab3a, 0xade79437, 0x6112a3b7)
  {
    hide W, IsBlock, Rounds, Load;
    Words1(b);
    Rounds2(b);
    var r :=
      Registers(0xc5d53d8d, 0xa7a3623f, 0xc2606d6d, 0x9dc68b63, 0xaa47c347, 0x49f5114a, 0xe1257970, 0x8ada8930);
    r := After(b, 24, r, 0x983e5152, 0xc8215c1a, 0x1c2c2838, 0x2823ef91);
    r := After(b, 25, r, 0xa831c66d, 0xb73679a2, 0xcde8037d, 0x14383d8e);
    r := After(b, 26, r, 0xb00327c8, 0xe5bc3909, 0xb62ec4bc, 0xc74c6516);
    r := After(b, 27, r, 0xbf597fc7, 0x32663c5b, 0x77d37528, 0xedffbff8);
    r := After(b, 28, r, 0xc6e00bf3, 0x9d209d67, 0x363482c9, 0x6112a3b7);
    r := After(b, 29, r, 0xd5a79147, 0xec8726cb, 0xa0060b30, 0xade79437);
    r := After(b, 30, r, 0x06ca6351, 0x702138a4, 0xea992a22, 0x0109ab3a);
    r := After(b, 31, r, 0x14292967, 0xd3b7973b, 0x73b33bf5, 0xba591112);
  }

  lemma Rounds4(b: seq<Byte>)
    requires |b| == BLOCK && IsBlock(b)
    ensures Rounds(Load(INITIAL), b, 40) ==
      Registers(0x79ea687a, 0x6dc57a8a, 0x34df1604, 0x41a65cb1, 0x1efbc0a0, 0xf0781bc8, 0xa507a53d, 0x0772a26b)
  {
    hide W, IsBlock, Rounds, Load;
    Words2(b);
    Rounds3(b);
    var r :=
      Registers(0x73b33bf5, 0xea992a22, 0xa0060b30, 0x363482c9, 0xba591112, 0x0109ab3a, 0xade79437, 0x6112a3b7);
    r := After(b, 32, r, 0x27b70a85, 0x93f5997f, 0x98e12507, 0x9cd9f5f6);
    r := After(b, 33, r, 0x2e1b2138, 0x3b68ba73, 0xfe604df5, 0x59249dd3);
    r := After(b, 34, r, 0x4d2c6dfc, 0xaff4ffc1, 0xa9a7738c, 0x085f3833);
    r := After(b, 35, r, 0x53380d13, 0xf10a5c62, 0x65a0cfe4, 0xf4b002d6);
    r := After(b, 36, r, 0x650a7354, 0x0a8b3996, 0x41a65cb1, 0x0772a26b);
    r := After(b, 37, r, 0x766a0abb, 0x72af830a, 0x34df1604, 0xa507a53d);
    r := After(b, 38, r, 0x81c2c92e, 0x9409e33e, 0x6dc57a8a, 0xf0781bc8);
    r := After(b, 39, r, 0x92722c85, 0x24641522, 0x79ea687a, 0x1efbc0a0);
  }

  lemma Rounds5(b: seq<Byte>)
    requires |b| == BLOCK && IsBlock(b)
    ensures Rounds(Load(INITIAL), b, 48) ==
      Registers(0x4172328d, 0xa14c14b0, 0x72ab4b91, 0x26628815, 0xfecf0bc6, 0xd57b94a9, 0xb7755da1, 0xa80f11f0)
  {
    hide W, IsBlock, Rounds, Load;
    Words2(b);
    Rounds4(b);
    var r :=
      Registers(0x79ea687a, 0x6dc57a8a, 0x34df1604, 0x41a65cb1, 0x1efbc0a0, 0xf0781bc8, 0xa507a53d, 0x0772a26b);
    r := After(b, 40, r, 0xa2bfe8a1, 0x9f47bf94, 0xd6670766, 0x26352d63);
    r := After(b, 41, r, 0xa81a664b, 0xf0a64f5a, 0xdf46652f, 0x838b2711);
    r := After(b, 42, r, 0xc24b8b70, 0x3e246a79, 0x17aa0dfe, 0xdecd4715);
    r := After(b, 43, r, 0xc76c51a3, 0x27333ba3, 0x9d4baf93, 0xfda24c2e);
    r := After(b, 44, r, 0xd192e819, 0x0c4763f2, 0x26628815, 0xa80f11f0);
    r := After(b, 45, r, 0xd6990624, 0x840abf27, 0x72ab4b91, 0xb7755da1);
    r := After(b, 46, r, 0xf40e3585, 0x7a290d5d, 0xa14c14b0, 0xd57b94a9);
    r := After(b, 47, r, 0x106aa070, 0x065c43da, 0x4172328d, 0xfecf0bc6);
  }

  lemma Rounds6(b: seq<Byte>)
    requires |b| == BLOCK && IsBlock(b)
    ensures Rounds(Load(INITIAL), b, 56) ==
      Registers(0x38cc9913, 0x3ec45cdb, 0xf5702fdb, 0x101fd28f, 0x54cb266b, 0xe50e1b4f, 0x9f4787c3, 0x529e7d00)
  {
    hide W, IsBlock, Rounds, Load;
    Words3(b);
    Rounds5(b);
    var r :=
      Registers(0x4172328d, 0xa14c14b0, 0x72ab4b91, 0x26628815, 0xfecf0bc6, 0xd57b94a9, 0xb7755da1, 0xa80f11f0);
    r := After(b, 48, r, 0x19a4c116, 0xfb3e89cb, 0x05757ceb, 0xbd714038);
    r := After(b, 49, r, 0x1e376c08, 0xcc7617db, 0xf11bfaa8, 0x6e5c390c);
    r := After(b, 50, r, 0x2748774c, 0xb9e66c34, 0x7a0508a1, 0x52f1ccf7);
    r := After(b, 51, r, 0x34b0bcb5, 0xa9993667, 0x886e7a22, 0x49231c1e);
    r := After(b, 52, r, 0x391c0cb3, 0x84badedd, 0x101fd28f, 0x529e7d00);
    r := After(b, 53, r, 0x4ed8aa4a, 0xc21462bc, 0xf5702fdb, 0x9f4787c3);
    r := After(b, 54, r, 0x5b9cca4f, 0x1487472c, 0x3ec45cdb, 0xe50e1b4f);
    r := After(b, 55, r, 0x682e6ff3, 0xb20f7a99, 0x38cc9913, 0x54cb266b);
  }

  lemma Rounds7(b: seq<Byte>)
    requires |b| == BLOCK && IsBlock(b)
    ensures Rounds(Load(INITIAL), b, 64) ==
      Registers(0x506e3058, 0xd39a2165, 0x04d24d6c, 0xb85e2ce9, 0x5ef50f24, 0xfb121210, 0x948d25b6, 0x961f4894)
  {
    hide W, IsBlock, Rounds, Load;
    Words3(b);
    Rounds6(b);
    var r :=
      Registers(0x38cc9913, 0x3ec45cdb, 0xf5702fdb, 0x101fd28f, 0x54cb266b, 0xe50e1b4f, 0x9f4787c3, 0x529e7d00);
    r := After(b, 56, r, 0x748f82ee, 0xef57b9cd, 0xfcd1887b, 0x9b5e906c);
    r := After(b, 57, r, 0x78a5636f, 0xebe6b238, 0xc062d46f, 0x7e44008e);
    r := After(b, 58, r, 0x84c87814, 0x9fe3095e, 0xffb70472, 0x6d83bfc6);
    r := After(b, 59, r, 0x8cc70208, 0x78bc8d4b, 0xb6ae8fff, 0xb21bad3d);
    r := After(b, 60, r, 0x90befffa, 0xa43fcf15, 0xb85e2ce9, 0x961f4894);
    r := After(b, 61, r, 0xa4506ceb, 0x668b2ff8, 0x04d24d6c, 0x948d25b6);
    r := After(b, 62, r, 0xbef9a3f7, 0xeeaba2cc, 0xd39a2165, 0xfb121210);
    r := After(b, 63, r, 0xc67178f2, 0x12b1edeb, 0x506e3058, 0x5ef50f24);
  }

  lemma NoRounds(b: seq<Byte>)
    requires |b| == BLOCK
    ensures Rounds(Load(INITIAL), b, 0) ==
      Registers(0x6a09e667, 0xbb67ae85, 0x3c6ef372, 0xa54ff53a, 0x510e527f, 0x9b05688c, 0x1f83d9ab, 0x5be0cd19)
  {
  }

  // ---- the message ----

  lemma LengthField()
    ensures Length(24) == [0, 0, 0, 0, 0, 0, 0, 24]
  {
    hide LengthByte;
    UpperByte(0x100_0000_0000_0000);
    UpperByte(0x1_0000_0000_0000);
    UpperByte(0x100_0000_0000);
    UpperByte(0x1_0000_0000);
    UpperByte(0x100_0000);
    UpperByte(0x1_0000);
    UpperByte(0x100);
    LastByte();
  }

  lemma UpperByte(unit: nat)
    requires unit > 24
    ensures LengthByte(24, unit) == 0
  {
    assert 24 / unit == 0;
  }

  lemma LastByte()
    ensures LengthByte(24, 1) == 24
  {
  }

  lemma OneBlock()
    ensures |Padded(ABC)| == BLOCK && IsBlock(Padded(ABC))
  {
    hide Length;
    LengthField();
    assert PadZeros(3) == 52;
    Filling(ABC + [0x80], Zeros(52), Length(24));
    assert Padded(ABC) == ABC + [0x80] + Zeros(52) + Length(24);
  }

  lemma Filling(start: seq<Byte>, zeros: seq<Byte>, end: seq<Byte>)
    requires start == [0x61, 0x62, 0x63, 0x80] && zeros == Zeros(52) && end == [0, 0, 0, 0, 0, 0, 0, 24]
    ensures |start + zeros + end| == BLOCK && IsBlock(start + zeros + end)
  {
    var b := start + zeros + end;
    assert forall i :: 0 <= i < 4 ==> b[i] == start[i];
    assert forall i :: 4 <= i < 56 ==> b[i] == zeros[i - 4];
    assert forall i :: 56 <= i < 64 ==> b[i] == end[i - 56];
  }

  /** FIPS 180-4 gives this digest. */
  lemma DigestOfAbc()
    ensures Digest(ABC) == EXPECTED
  {
    hide IsBlock, Rounds, Padded;
    OneBlock();
    var b := Padded(ABC);
    Rounds7(b);
    assert b[..0] == [] && b[0..] == b;
    assert Absorb([]) == INITIAL;
    assert Absorb(b) == Compress(INITIAL, b);
    var s := [0xba7816bf, 0x8f01cfea, 0x414140de, 0x5dae2223, 0xb00361a3, 0x96177a9c, 0xb410ff61, 0xf20015ad];
    assert Accumulate(INITIAL, Rounds(Load(INITIAL), b, 64)) == s;
    DigestBytes(s);
  }

  lemma DigestBytes(s: seq<Word>)
    requires s == [0xba7816bf, 0x8f01cfea, 0x414140de, 0x5dae2223, 0xb00361a3, 0x96177a9c, 0xb410ff61, 0xf20015ad]
    ensures Bytes(s) == EXPECTED
  {
    hide Bytes;
    LowerHalf(s);
    assert s[..8] == s && EXPECTED[..32] == EXPECTED;
  }

  lemma UpperHalf(s: seq<Word>)
    requires |s| == 8 && s[0] == 0xba7816bf && s[1] == 0x8f01cfea && s[2] == 0x414140de && s[3] == 0x5dae2223
    ensures Bytes(s[..4]) == EXPECTED[..16]
  {
    hide Bytes, WordBytes;
    NoBytes(s);
    Push(s, 0, [0xba, 0x78, 0x16, 0xbf]);
    Push(s, 1, [0x8f, 0x01, 0xcf, 0xea]);
    Push(s, 2, [0x41, 0x41, 0x40, 0xde]);
    Push(s, 3, [0x5d, 0xae, 0x22, 0x23]);
  }

  lemma LowerHalf(s: seq<Word>)
    requires |s| == 8 && s[0] == 0xba7816bf && s[1] == 0x8f01cfea && s[2] == 0x414140de && s[3] == 0x5dae2223 && s[4] == 0xb00361a3 && s[5] == 0x96177a9c && s[6] == 0xb410ff61 && s[7] == 0xf20015ad
    ensures Bytes(s[..8]) == EXPECTED[..32]
  {
    hide Bytes, WordBytes;
    UpperHalf(s);
    Push(s, 4, [0xb0, 0x03, 0x61, 0xa3]);
    Push(s, 5, [0x96, 0x17, 0x7a, 0x9c]);
    Push(s, 6, [0xb4, 0x10, 0xff, 0x61]);
    Push(s, 7, [0xf2, 0x00, 0x15, 0xad]);
  }

  lemma NoBytes(s: seq<Word>)
    ensures Bytes(s[..0]) == []
  {
  }

  lemma Push(s: seq<Word>, k: nat, w: seq<Byte>)
    requires k < |s| && |w| == 4 && WordIs(s[k], w[0], w[1], w[2], w[3])
    ensures Bytes(s[..k + 1]) == Bytes(s[..k]) + w
  {
    assert s[..k + 1][..k] == s[..k];
  }

  predicate WordIs(w: Word, a: Byte, b: Byte, c: Byte, d: Byte) {
    ((w >> 24) & 0xff) as Byte == a && ((w >> 16) & 0xff) as Byte == b && ((w >> 8) & 0xff) as Byte == c && (w & 0xff) as Byte == d
  }
}
