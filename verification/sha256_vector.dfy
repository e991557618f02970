/**
 * The example of FIPS 180-4 worked through: the message schedule, every round and the digest of the
 * three bytes "abc". One wrong rotation, constant, index or byte order would give another digest.
 */
module Sha256Vector {
  import opened Bytes
  import opened Sha256

  const ABC: seq<byte> := [0x61, 0x62, 0x63]

  /** Row words of a sequence from i on. */
  predicate Row(s: seq<word>, i: nat, a: word, b: word, c: word, d: word, e: word, f: word, g: word, h: word) {
    && i + 8 <= |s|
    && s[i] == a && s[i + 1] == b && s[i + 2] == c && s[i + 3] == d
    && s[i + 4] == e && s[i + 5] == f && s[i + 6] == g && s[i + 7] == h
  }

  // ---- the message schedule ----

  /** Section 6.2.2, step 1: a later word of a schedule. */
  predicate Expanded(w: seq<word>, i: nat) {
    |w| == 64 && 16 <= i < 64 && w[i] == Expand(w[i - 2], w[i - 7], w[i - 15], w[i - 16])
  }

  predicate IsSchedule(w: seq<word>) {
    |w| == 64 && forall i :: 16 <= i < 64 ==> Expanded(w, i)
  }

  lemma {:induction false} Words16(w: seq<word>)
    requires IsSchedule(w)
    requires Row(w, 0, 0x61626380, 0x00000000, 0x00000000, 0x00000000, 0x00000000, 0x00000000, 0x00000000, 0x00000000)
    requires Row(w, 8, 0x00000000, 0x00000000, 0x00000000, 0x00000000, 0x00000000, 0x00000000, 0x00000000, 0x00000018)
    ensures Row(w, 16, 0x61626380, 0x000f0000, 0x7da86405, 0x600003c6, 0x3e9d7b78, 0x0183fc00, 0x12dcbfdb, 0xe2e2c38e)
  {
    assert Expanded(w, 16) && w[16] == 0x61626380;
    assert Expanded(w, 17) && w[17] == 0x000f0000;
    assert Expanded(w, 18) && w[18] == 0x7da86405;
    assert Expanded(w, 19) && w[19] == 0x600003c6;
    assert Expanded(w, 20) && w[20] == 0x3e9d7b78;
    assert Expanded(w, 21) && w[21] == 0x0183fc00;
    assert Expanded(w, 22) && w[22] == 0x12dcbfdb;
    assert Expanded(w, 23) && w[23] == 0xe2e2c38e;
  }

  lemma {:induction false} Words24(w: seq<word>)
    requires IsSchedule(w)
    requires Row(w, 8, 0x00000000, 0x00000000, 0x00000000, 0x00000000, 0x00000000, 0x00000000, 0x00000000, 0x00000018)
    requires Row(w, 16, 0x61626380, 0x000f0000, 0x7da86405, 0x600003c6, 0x3e9d7b78, 0x0183fc00, 0x12dcbfdb, 0xe2e2c38e)
    ensures Row(w, 24, 0xc8215c1a, 0xb73679a2, 0xe5bc3909, 0x32663c5b, 0x9d209d67, 0xec8726cb, 0x702138a4, 0xd3b7973b)
  {
    assert Expanded(w, 24) && w[24] == 0xc8215c1a;
    assert Expanded(w, 25) && w[25] == 0xb73679a2;
    assert Expanded(w, 26) && w[26] == 0xe5bc3909;
    assert Expanded(w, 27) && w[27] == 0x32663c5b;
    assert Expanded(w, 28) && w[28] == 0x9d209d67;
    assert Expanded(w, 29) && w[29] == 0xec8726cb;
    assert Expanded(w, 30) && w[30] == 0x702138a4;
    assert Expanded(w, 31) && w[31] == 0xd3b7973b;
  }

  lemma {:induction false} Words32(w: seq<word>)
    requires IsSchedule(w)
    requires Row(w, 16, 0x61626380, 0x000f0000, 0x7da86405, 0x600003c6, 0x3e9d7b78, 0x0183fc00, 0x12dcbfdb, 0xe2e2c38e)
    requires Row(w, 24, 0xc8215c1a, 0xb73679a2, 0xe5bc3909, 0x32663c5b, 0x9d209d67, 0xec8726cb, 0x702138a4, 0xd3b7973b)
    ensures Row(w, 32, 0x93f5997f, 0x3b68ba73, 0xaff4ffc1, 0xf10a5c62, 0x0a8b3996, 0x72af830a, 0x9409e33e, 0x24641522)
  {
    assert Expanded(w, 32) && w[32] == 0x93f5997f;
    assert Expanded(w, 33) && w[33] == 0x3b68ba73;
    assert Expanded(w, 34) && w[34] == 0xaff4ffc1;
    assert Expanded(w, 35) && w[35] == 0xf10a5c62;
    assert Expanded(w, 36) && w[36] == 0x0a8b3996;
    assert Expanded(w, 37) && w[37] == 0x72af830a;
    assert Expanded(w, 38) && w[38] == 0x9409e33e;
    assert Expanded(w, 39) && w[39] == 0x24641522;
  }

  lemma {:induction false} Words40(w: seq<word>)
    requires IsSchedule(w)
    requires Row(w, 24, 0xc8215c1a, 0xb73679a2, 0xe5bc3909, 0x32663c5b, 0x9d209d67, 0xec8726cb, 0x702138a4, 0xd3b7973b)
    requires Row(w, 32, 0x93f5997f, 0x3b68ba73, 0xaff4ffc1, 0xf10a5c62, 0x0a8b3996, 0x72af830a, 0x9409e33e, 0x24641522)
    ensures Row(w, 40, 0x9f47bf94, 0xf0a64f5a, 0x3e246a79, 0x27333ba3, 0x0c4763f2, 0x840abf27, 0x7a290d5d, 0x065c43da)
  {
    assert Expanded(w, 40) && w[40] == 0x9f47bf94;
    assert Expanded(w, 41) && w[41] == 0xf0a64f5a;
    assert Expanded(w, 42) && w[42] == 0x3e246a79;
    assert Expanded(w, 43) && w[43] == 0x27333ba3;
    assert Expanded(w, 44) && w[44] == 0x0c4763f2;
    assert Expanded(w, 45) && w[45] == 0x840abf27;
    assert Expanded(w, 46) && w[46] == 0x7a290d5d;
    assert Expanded(w, 47) && w[47] == 0x065c43da;
  }

  lemma {:induction false} Words48(w: seq<word>)
    requires IsSchedule(w)
    requires Row(w, 32, 0x93f5997f, 0x3b68ba73, 0xaff4ffc1, 0xf10a5c62, 0x0a8b3996, 0x72af830a, 0x9409e33e, 0x24641522)
    requires Row(w, 40, 0x9f47bf94, 0xf0a64f5a, 0x3e246a79, 0x27333ba3, 0x0c4763f2, 0x840abf27, 0x7a290d5d, 0x065c43da)
    ensures Row(w, 48, 0xfb3e89cb, 0xcc7617db, 0xb9e66c34, 0xa9993667, 0x84badedd, 0xc21462bc, 0x1487472c, 0xb20f7a99)
  {
    assert Expanded(w, 48) && w[48] == 0xfb3e89cb;
    assert Expanded(w, 49) && w[49] == 0xcc7617db;
    assert Expanded(w, 50) && w[50] == 0xb9e66c34;
    assert Expanded(w, 51) && w[51] == 0xa9993667;
    assert Expanded(w, 52) && w[52] == 0x84badedd;
    assert Expanded(w, 53) && w[53] == 0xc21462bc;
    assert Expanded(w, 54) && w[54] == 0x1487472c;
    assert Expanded(w, 55) && w[55] == 0xb20f7a99;
  }

  lemma {:induction false} Words56(w: seq<word>)
    requires IsSchedule(w)
    requires Row(w, 40, 0x9f47bf94, 0xf0a64f5a, 0x3e246a79, 0x27333ba3, 0x0c4763f2, 0x840abf27, 0x7a290d5d, 0x065c43da)
    requires Row(w, 48, 0xfb3e89cb, 0xcc7617db, 0xb9e66c34, 0xa9993667, 0x84badedd, 0xc21462bc, 0x1487472c, 0xb20f7a99)
    ensures Row(w, 56, 0xef57b9cd, 0xebe6b238, 0x9fe3095e, 0x78bc8d4b, 0xa43fcf15, 0x668b2ff8, 0xeeaba2cc, 0x12b1edeb)
  {
    assert Expanded(w, 56) && w[56] == 0xef57b9cd;
    assert Expanded(w, 57) && w[57] == 0xebe6b238;
    assert Expanded(w, 58) && w[58] == 0x9fe3095e;
    assert Expanded(w, 59) && w[59] == 0x78bc8d4b;
    assert Expanded(w, 60) && w[60] == 0xa43fcf15;
    assert Expanded(w, 61) && w[61] == 0x668b2ff8;
    assert Expanded(w, 62) && w[62] == 0xeeaba2cc;
    assert Expanded(w, 63) && w[63] == 0x12b1edeb;
  }

  lemma {:induction false} ScheduleWord(b: seq<byte>, at: nat, n: nat, i: nat)
    requires at + 64 <= |b| && i < n <= 64
    ensures var w := Schedule(b, at, n); var p := at + 4 * i;
      w[i] == if i < 16 then Word(b[p], b[p + 1], b[p + 2], b[p + 3])
              else Expand(w[i - 2], w[i - 7], w[i - 15], w[i - 16])
  {
    hide Word, Expand;
    if i < n - 1 { ScheduleWord(b, at, n - 1, i); }
  }

  lemma {:induction false} ScheduleIsSchedule(b: seq<byte>)
    requires |b| == 64
    ensures IsSchedule(Schedule(b, 0, 64))
  {
    forall i | 16 <= i < 64
      ensures Expanded(Schedule(b, 0, 64), i)
    {
      ScheduleWord(b, 0, 64, i);
    }
  }

  lemma {:induction false} ZeroBytes(k: nat)
    ensures |BigEndian(0, k)| == k && forall i :: 0 <= i < k ==> BigEndian(0, k)[i] == 0
  {
    if k > 0 { ZeroBytes(k - 1); }
  }

  lemma {:induction false} LengthBytes()
    ensures BigEndian(24, 8) == [0, 0, 0, 0, 0, 0, 0, 24]
  {
    ZeroBytes(7);
    assert BigEndian(24, 8) == BigEndian(0, 7) + [24];
  }

  lemma {:induction false} PaddedAbc()
    ensures Pad(ABC) == [0x61, 0x62, 0x63, 0x80] + Zeros(52) + [0, 0, 0, 0, 0, 0, 0, 24]
    ensures |Pad(ABC)| == 64
  {
    LengthBytes();
    hide BigEndian;
    assert PaddedLength(3) == 64;
    assert ABC + [0x80] == [0x61, 0x62, 0x63, 0x80];
  }

  lemma {:induction false} ByteOfAbc(i: nat)
    requires i < 64
    ensures |Pad(ABC)| == 64
    ensures Pad(ABC)[i] ==
            if i == 0 then 0x61 else if i == 1 then 0x62 else if i == 2 then 0x63 else if i == 3 then 0x80
            else if i == 63 then 24 else 0
  {
    PaddedAbc();
    hide Pad;
  }

  lemma {:induction false} WordsOfAbc()
    ensures Word(0x61, 0x62, 0x63, 0x80) == 0x61626380 && Word(0, 0, 0, 0) == 0 && Word(0, 0, 0, 24) == 0x18
  {
  }

  lemma {:induction false} FirstWord(b: seq<byte>, i: nat)
    requires b == Pad(ABC) && |b| == 64 && i < 16
    ensures Schedule(b, 0, 64)[i] == if i == 0 then 0x61626380 else if i == 15 then 0x18 else 0
  {
    hide Pad, Schedule, Word;
    ScheduleWord(b, 0, 64, i);
    ByteOfAbc(4 * i);
    ByteOfAbc(4 * i + 1);
    ByteOfAbc(4 * i + 2);
    ByteOfAbc(4 * i + 3);
    WordsOfAbc();
  }

  lemma {:induction false} FirstWords(w: seq<word>)
    requires |Pad(ABC)| == 64 && w == Schedule(Pad(ABC), 0, 64)
    ensures Row(w, 0, 0x61626380, 0x00000000, 0x00000000, 0x00000000, 0x00000000, 0x00000000, 0x00000000, 0x00000000)
    ensures Row(w, 8, 0x00000000, 0x00000000, 0x00000000, 0x00000000, 0x00000000, 0x00000000, 0x00000000, 0x00000018)
  {
    hide Schedule, Pad, Word, Expand;
    forall i | 0 <= i < 16
      ensures w[i] == if i == 0 then 0x61626380 else if i == 15 then 0x18 else 0
    {
      FirstWord(Pad(ABC), i);
    }
  }

  // ---- the rounds ----

  lemma {:induction false} Constants0()
    ensures RoundConstant(0) == 0x428a2f98 && RoundConstant(1) == 0x71374491
    ensures RoundConstant(2) == 0xb5c0fbcf && RoundConstant(3) == 0xe9b5dba5
    ensures RoundConstant(4) == 0x3956c25b && RoundConstant(5) == 0x59f111f1
    ensures RoundConstant(6) == 0x923f82a4 && RoundConstant(7) == 0xab1c5ed5
  {
    assert |K| == 64;
  }

  lemma {:induction false} Constants8()
    ensures RoundConstant(8) == 0xd807aa98 && RoundConstant(9) == 0x12835b01
    ensures RoundConstant(10) == 0x243185be && RoundConstant(11) == 0x550c7dc3
    ensures RoundConstant(12) == 0x72be5d74 && RoundConstant(13) == 0x80deb1fe
    ensures RoundConstant(14) == 0x9bdc06a7 && RoundConstant(15) == 0xc19bf174
  {
    assert |K| == 64;
  }

  lemma {:induction false} Constants16()
    ensures RoundConstant(16) == 0xe49b69c1 && RoundConstant(17) == 0xefbe4786
    ensures RoundConstant(18) == 0x0fc19dc6 && RoundConstant(19) == 0x240ca1cc
    ensures RoundConstant(20) == 0x2de92c6f && RoundConstant(21) == 0x4a7484aa
    ensures RoundConstant(22) == 0x5cb0a9dc && RoundConstant(23) == 0x76f988da
  {
    assert |K| == 64;
  }

  lemma {:induction false} Constants24()
    ensures RoundConstant(24) == 0x983e5152 && RoundConstant(25) == 0xa831c66d
    ensures RoundConstant(26) == 0xb00327c8 && RoundConstant(27) == 0xbf597fc7
    ensures RoundConstant(28) == 0xc6e00bf3 && RoundConstant(29) == 0xd5a79147
    ensures RoundConstant(30) == 0x06ca6351 && RoundConstant(31) == 0x14292967
  {
    assert |K| == 64;
  }

  lemma {:induction false} Constants32()
    ensures RoundConstant(32) == 0x27b70a85 && RoundConstant(33) == 0x2e1b2138
    ensures RoundConstant(34) == 0x4d2c6dfc && RoundConstant(35) == 0x53380d13
    ensures RoundConstant(36) == 0x650a7354 && RoundConstant(37) == 0x766a0abb
    ensures RoundConstant(38) == 0x81c2c92e && RoundConstant(39) == 0x92722c85
  {
    assert |K| == 64;
  }

  lemma {:induction false} Constants40()
    ensures RoundConstant(40) == 0xa2bfe8a1 && RoundConstant(41) == 0xa81a664b
    ensures RoundConstant(42) == 0xc24b8b70 && RoundConstant(43) == 0xc76c51a3
    ensures RoundConstant(44) == 0xd192e819 && RoundConstant(45) == 0xd6990624
    ensures RoundConstant(46) == 0xf40e3585 && RoundConstant(47) == 0x106aa070
  {
    assert |K| == 64;
  }

  lemma {:induction false} Constants48()
    ensures RoundConstant(48) == 0x19a4c116 && RoundConstant(49) == 0x1e376c08
    ensures RoundConstant(50) == 0x2748774c && RoundConstant(51) == 0x34b0bcb5
    ensures RoundConstant(52) == 0x391c0cb3 && RoundConstant(53) == 0x4ed8aa4a
    ensures RoundConstant(54) == 0x5b9cca4f && RoundConstant(55) == 0x682e6ff3
  {
    assert |K| == 64;
  }

  lemma {:induction false} Constants56()
    ensures RoundConstant(56) == 0x748f82ee && RoundConstant(57) == 0x78a5636f
    ensures RoundConstant(58) == 0x84c87814 && RoundConstant(59) == 0x8cc70208
    ensures RoundConstant(60) == 0x90befffa && RoundConstant(61) == 0xa4506ceb
    ensures RoundConstant(62) == 0xbef9a3f7 && RoundConstant(63) == 0xc67178f2
  {
    assert |K| == 64;
  }

  lemma {:induction false} Rounds8(w: seq<word>)
    requires |w| == 64
    requires Row(w, 0, 0x61626380, 0x00000000, 0x00000000, 0x00000000, 0x00000000, 0x00000000, 0x00000000, 0x00000000)
    ensures Rounds(H0, w, 8) == Regs(0x85a07b5f, 0xe5030380, 0x2b4209f5, 0x04409a6a,
                                     0x0c657a79, 0x9b27a401, 0x714260ad, 0x43ada245)
  {
    hide RoundConstant;
    Constants0();
    assert Rounds(H0, w, 1).a == 0x5d6aebcd && Rounds(H0, w, 1).e == 0xfa2a4622;
    assert Rounds(H0, w, 2).a == 0x5a6ad9ad && Rounds(H0, w, 2).e == 0x78ce7989;
    assert Rounds(H0, w, 3).a == 0xc8c347a7 && Rounds(H0, w, 3).e == 0xf92939eb;
    assert Rounds(H0, w, 4).a == 0xd550f666 && Rounds(H0, w, 4).e == 0x24e00850;
    assert Rounds(H0, w, 5).a == 0x04409a6a && Rounds(H0, w, 5).e == 0x43ada245;
    assert Rounds(H0, w, 6).a == 0x2b4209f5 && Rounds(H0, w, 6).e == 0x714260ad;
    assert Rounds(H0, w, 7).a == 0xe5030380 && Rounds(H0, w, 7).e == 0x9b27a401;
    assert Rounds(H0, w, 8).a == 0x85a07b5f && Rounds(H0, w, 8).e == 0x0c657a79;
  }

  lemma {:induction false} Rounds16(w: seq<word>)
    requires |w| == 64
    requires Row(w, 8, 0x00000000, 0x00000000, 0x00000000, 0x00000000, 0x00000000, 0x00000000, 0x00000000, 0x00000018)
    requires Rounds(H0, w, 8) == Regs(0x85a07b5f, 0xe5030380, 0x2b4209f5, 0x04409a6a,
                                      0x0c657a79, 0x9b27a401, 0x714260ad, 0x43ada245)
    ensures Rounds(H0, w, 16) == Regs(0xb0fa238e, 0xc0645fde, 0xd932eb16, 0x87912990,
                                     0x07590dcd, 0x0b92f20c, 0x745a48de, 0x1e578218)
  {
    hide RoundConstant;
    Constants8();
    assert Rounds(H0, w, 9).a == 0x8e04ecb9 && Rounds(H0, w, 9).e == 0x32ca2d8c;
    assert Rounds(H0, w, 10).a == 0x8c87346b && Rounds(H0, w, 10).e == 0x1cc92596;
    assert Rounds(H0, w, 11).a == 0x4798a3f4 && Rounds(H0, w, 11).e == 0x436b23e8;
    assert Rounds(H0, w, 12).a == 0xf71fc5a9 && Rounds(H0, w, 12).e == 0x816fd6e9;
    assert Rounds(H0, w, 13).a == 0x87912990 && Rounds(H0, w, 13).e == 0x1e578218;
    assert Rounds(H0, w, 14).a == 0xd932eb16 && Rounds(H0, w, 14).e == 0x745a48de;
    assert Rounds(H0, w, 15).a == 0xc0645fde && Rounds(H0, w, 15).e == 0x0b92f20c;
    assert Rounds(H0, w, 16).a == 0xb0fa238e && Rounds(H0, w, 16).e == 0x07590dcd;
  }

  lemma {:induction false} Rounds24(w: seq<word>)
    requires |w| == 64
    requires Row(w, 16, 0x61626380, 0x000f0000, 0x7da86405, 0x600003c6, 0x3e9d7b78, 0x0183fc00, 0x12dcbfdb, 0xe2e2c38e)
    requires Rounds(H0, w, 16) == Regs(0xb0fa238e, 0xc0645fde, 0xd932eb16, 0x87912990,
                                      0x07590dcd, 0x0b92f20c, 0x745a48de, 0x1e578218)
    ensures Rounds(H0, w, 24) == Regs(0xc5d53d8d, 0xa7a3623f, 0xc2606d6d, 0x9dc68b63,
                                     0xaa47c347, 0x49f5114a, 0xe1257970, 0x8ada8930)
  {
    hide RoundConstant;
    Constants16();
    assert Rounds(H0, w, 17).a == 0x21da9a9b && Rounds(H0, w, 17).e == 0x8034229c;
    assert Rounds(H0, w, 18).a == 0xc2fbd9d1 && Rounds(H0, w, 18).e == 0x846ee454;
    assert Rounds(H0, w, 19).a == 0xfe777bbf && Rounds(H0, w, 19).e == 0xcc899961;
    assert Rounds(H0, w, 20).a == 0xe1f20c33 && Rounds(H0, w, 20).e == 0xb0638179;
    assert Rounds(H0, w, 21).a == 0x9dc68b63 && Rounds(H0, w, 21).e == 0x8ada8930;
    assert Rounds(H0, w, 22).a == 0xc2606d6d && Rounds(H0, w, 22).e == 0xe1257970;
    assert Rounds(H0, w, 23).a == 0xa7a3623f && Rounds(H0, w, 23).e == 0x49f5114a;
    assert Rounds(H0, w, 24).a == 0xc5d53d8d && Rounds(H0, w, 24).e == 0xaa47c347;
  }

  lemma {:induction false} Rounds32(w: seq<word>)
    requires |w| == 64
    requires Row(w, 24, 0xc8215c1a, 0xb73679a2, 0xe5bc3909, 0x32663c5b, 0x9d209d67, 0xec8726cb, 0x702138a4, 0xd3b7973b)
    requires Rounds(H0, w, 24) == Regs(0xc5d53d8d, 0xa7a3623f, 0xc2606d6d, 0x9dc68b63,
                                      0xaa47c347, 0x49f5114a, 0xe1257970, 0x8ada8930)
    ensures Rounds(H0, w, 32) == Regs(0x73b33bf5, 0xea992a22, 0xa0060b30, 0x363482c9,
                                     0xba591112, 0x0109ab3a, 0xade79437, 0x6112a3b7)
  {
    hide RoundConstant;
    Constants24();
    assert Rounds(H0, w, 25).a == 0x1c2c2838 && Rounds(H0, w, 25).e == 0x2823ef91;
    assert Rounds(H0, w, 26).a == 0xcde8037d && Rounds(H0, w, 26).e == 0x14383d8e;
    assert Rounds(H0, w, 27).a == 0xb62ec4bc && Rounds(H0, w, 27).e == 0xc74c6516;
    assert Rounds(H0, w, 28).a == 0x77d37528 && Rounds(H0, w, 28).e == 0xedffbff8;
    assert Rounds(H0, w, 29).a == 0x363482c9 && Rounds(H0, w, 29).e == 0x6112a3b7;
    assert Rounds(H0, w, 30).a == 0xa0060b30 && Rounds(H0, w, 30).e == 0xade79437;
    assert Rounds(H0, w, 31).a == 0xea992a22 && Rounds(H0, w, 31).e == 0x0109ab3a;
    assert Rounds(H0, w, 32).a == 0x73b33bf5 && Rounds(H0, w, 32).e == 0xba591112;
  }

  lemma {:induction false} Rounds40(w: seq<word>)
    requires |w| == 64
    requires Row(w, 32, 0x93f5997f, 0x3b68ba73, 0xaff4ffc1, 0xf10a5c62, 0x0a8b3996, 0x72af830a, 0x9409e33e, 0x24641522)
    requires Rounds(H0, w, 32) == Regs(0x73b33bf5, 0xea992a22, 0xa0060b30, 0x363482c9,
                                      0xba591112, 0x0109ab3a, 0xade79437, 0x6112a3b7)
    ensures Rounds(H0, w, 40) == Regs(0x79ea687a, 0x6dc57a8a, 0x34df1604, 0x41a65cb1,
                                     0x1efbc0a0, 0xf0781bc8, 0xa507a53d, 0x0772a26b)
  {
    hide RoundConstant;
    Constants32();
    assert Rounds(H0, w, 33).a == 0x98e12507 && Rounds(H0, w, 33).e == 0x9cd9f5f6;
    assert Rounds(H0, w, 34).a == 0xfe604df5 && Rounds(H0, w, 34).e == 0x59249dd3;
    assert Rounds(H0, w, 35).a == 0xa9a7738c && Rounds(H0, w, 35).e == 0x085f3833;
    assert Rounds(H0, w, 36).a == 0x65a0cfe4 && Rounds(H0, w, 36).e == 0xf4b002d6;
    assert Rounds(H0, w, 37).a == 0x41a65cb1 && Rounds(H0, w, 37).e == 0x0772a26b;
    assert Rounds(H0, w, 38).a == 0x34df1604 && Rounds(H0, w, 38).e == 0xa507a53d;
    assert Rounds(H0, w, 39).a == 0x6dc57a8a && Rounds(H0, w, 39).e == 0xf0781bc8;
    assert Rounds(H0, w, 40).a == 0x79ea687a && Rounds(H0, w, 40).e == 0x1efbc0a0;
  }

  lemma {:induction false} Rounds48(w: seq<word>)
    requires |w| == 64
    requires Row(w, 40, 0x9f47bf94, 0xf0a64f5a, 0x3e246a79, 0x27333ba3, 0x0c4763f2, 0x840abf27, 0x7a290d5d, 0x065c43da)
    requires Rounds(H0, w, 40) == Regs(0x79ea687a, 0x6dc57a8a, 0x34df1604, 0x41a65cb1,
                                      0x1efbc0a0, 0xf0781bc8, 0xa507a53d, 0x0772a26b)
    ensures Rounds(H0, w, 48) == Regs(0x4172328d, 0xa14c14b0, 0x72ab4b91, 0x26628815,
                                     0xfecf0bc6, 0xd57b94a9, 0xb7755da1, 0xa80f11f0)
  {
    hide RoundConstant;
    Constants40();
    assert Rounds(H0, w, 41).a == 0xd6670766 && Rounds(H0, w, 41).e == 0x26352d63;
    assert Rounds(H0, w, 42).a == 0xdf46652f && Rounds(H0, w, 42).e == 0x838b2711;
    assert Rounds(H0, w, 43).a == 0x17aa0dfe && Rounds(H0, w, 43).e == 0xdecd4715;
    assert Rounds(H0, w, 44).a == 0x9d4baf93 && Rounds(H0, w, 44).e == 0xfda24c2e;
    assert Rounds(H0, w, 45).a == 0x26628815 && Rounds(H0, w, 45).e == 0xa80f11f0;
    assert Rounds(H0, w, 46).a == 0x72ab4b91 && Rounds(H0, w, 46).e == 0xb7755da1;
    assert Rounds(H0, w, 47).a == 0xa14c14b0 && Rounds(H0, w, 47).e == 0xd57b94a9;
    assert Rounds(H0, w, 48).a == 0x4172328d && Rounds(H0, w, 48).e == 0xfecf0bc6;
  }

  lemma {:induction false} Rounds56(w: seq<word>)
    requires |w| == 64
    requires Row(w, 48, 0xfb3e89cb, 0xcc7617db, 0xb9e66c34, 0xa9993667, 0x84badedd, 0xc21462bc, 0x1487472c, 0xb20f7a99)
    requires Rounds(H0, w, 48) == Regs(0x4172328d, 0xa14c14b0, 0x72ab4b91, 0x26628815,
                                      0xfecf0bc6, 0xd57b94a9, 0xb7755da1, 0xa80f11f0)
    ensures Rounds(H0, w, 56) == Regs(0x38cc9913, 0x3ec45cdb, 0xf5702fdb, 0x101fd28f,
                                     0x54cb266b, 0xe50e1b4f, 0x9f4787c3, 0x529e7d00)
  {
    hide RoundConstant;
    Constants48();
    assert Rounds(H0, w, 49).a == 0x05757ceb && Rounds(H0, w, 49).e == 0xbd714038;
    assert Rounds(H0, w, 50).a == 0xf11bfaa8 && Rounds(H0, w, 50).e == 0x6e5c390c;
    assert Rounds(H0, w, 51).a == 0x7a0508a1 && Rounds(H0, w, 51).e == 0x52f1ccf7;
    assert Rounds(H0, w, 52).a == 0x886e7a22 && Rounds(H0, w, 52).e == 0x49231c1e;
    assert Rounds(H0, w, 53).a == 0x101fd28f && Rounds(H0, w, 53).e == 0x529e7d00;
    assert Rounds(H0, w, 54).a == 0xf5702fdb && Rounds(H0, w, 54).e == 0x9f4787c3;
    assert Rounds(H0, w, 55).a == 0x3ec45cdb && Rounds(H0, w, 55).e == 0xe50e1b4f;
    assert Rounds(H0, w, 56).a == 0x38cc9913 && Rounds(H0, w, 56).e == 0x54cb266b;
  }

  lemma {:induction false} Rounds64(w: seq<word>)
    requires |w| == 64
    requires Row(w, 56, 0xef57b9cd, 0xebe6b238, 0x9fe3095e, 0x78bc8d4b, 0xa43fcf15, 0x668b2ff8, 0xeeaba2cc, 0x12b1edeb)
    requires Rounds(H0, w, 56) == Regs(0x38cc9913, 0x3ec45cdb, 0xf5702fdb, 0x101fd28f,
                                      0x54cb266b, 0xe50e1b4f, 0x9f4787c3, 0x529e7d00)
    ensures Rounds(H0, w, 64) == Regs(0x506e3058, 0xd39a2165, 0x04d24d6c, 0xb85e2ce9,
                                     0x5ef50f24, 0xfb121210, 0x948d25b6, 0x961f4894)
  {
    hide RoundConstant;
    Constants56();
    assert Rounds(H0, w, 57).a == 0xfcd1887b && Rounds(H0, w, 57).e == 0x9b5e906c;
    assert Rounds(H0, w, 58).a == 0xc062d46f && Rounds(H0, w, 58).e == 0x7e44008e;
    assert Rounds(H0, w, 59).a == 0xffb70472 && Rounds(H0, w, 59).e == 0x6d83bfc6;
    assert Rounds(H0, w, 60).a == 0xb6ae8fff && Rounds(H0, w, 60).e == 0xb21bad3d;
    assert Rounds(H0, w, 61).a == 0xb85e2ce9 && Rounds(H0, w, 61).e == 0x961f4894;
    assert Rounds(H0, w, 62).a == 0x04d24d6c && Rounds(H0, w, 62).e == 0x948d25b6;
    assert Rounds(H0, w, 63).a == 0xd39a2165 && Rounds(H0, w, 63).e == 0xfb121210;
    assert Rounds(H0, w, 64).a == 0x506e3058 && Rounds(H0, w, 64).e == 0x5ef50f24;
  }

  // ---- the digest ----

  lemma {:induction false} HashOfAbc(w: seq<word>)
    requires |Pad(ABC)| == 64 && w == Schedule(Pad(ABC), 0, 64)
    ensures AddRegs(H0, Rounds(H0, w, 64)) == Regs(0xba7816bf, 0x8f01cfea, 0x414140de, 0x5dae2223,
                                                  0xb00361a3, 0x96177a9c, 0xb410ff61, 0xf20015ad)
  {
    hide Schedule, Pad, Rounds, IsSchedule;
    FirstWords(w);
    ScheduleIsSchedule(Pad(ABC));
    Words16(w);
    Words24(w);
    Words32(w);
    Words40(w);
    Words48(w);
    Words56(w);
    Rounds8(w);
    Rounds16(w);
    Rounds24(w);
    Rounds32(w);
    Rounds40(w);
    Rounds48(w);
    Rounds56(w);
    Rounds64(w);
  }

  lemma {:induction false} AllBytesSnoc(ws: seq<word>, x: word)
    ensures AllBytes(ws + [x]) == AllBytes(ws) + WordBytes(x)
  {
    hide WordBytes;
    assert (ws + [x])[..|ws|] == ws;
  }

  lemma {:induction false} AllBytesOne(x: word)
    ensures AllBytes([x]) == WordBytes(x)
  {
    hide WordBytes;
    assert [x][..0] == [];
    assert AllBytes([]) + WordBytes(x) == WordBytes(x);
  }

  lemma {:induction false} DigestBytes(r: Regs)
    ensures AllBytes(RegsSeq(r)) ==
            WordBytes(r.a) + WordBytes(r.b) + WordBytes(r.c) + WordBytes(r.d)
            + WordBytes(r.e) + WordBytes(r.f) + WordBytes(r.g) + WordBytes(r.h)
  {
    AllBytesOne(r.a);
    hide AllBytes, WordBytes;
    var s1 := [r.a];
    var s2 := s1 + [r.b];
    var s3 := s2 + [r.c];
    var s4 := s3 + [r.d];
    var s5 := s4 + [r.e];
    var s6 := s5 + [r.f];
    var s7 := s6 + [r.g];
    var s8 := s7 + [r.h];
    AllBytesSnoc(s1, r.b);
    AllBytesSnoc(s2, r.c);
    AllBytesSnoc(s3, r.d);
    AllBytesSnoc(s4, r.e);
    AllBytesSnoc(s5, r.f);
    AllBytesSnoc(s6, r.g);
    AllBytesSnoc(s7, r.h);
    assert s8 == RegsSeq(r);
  }

  lemma {:induction false} BytesOfHash()
    ensures WordBytes(0xba7816bf) == [0xba, 0x78, 0x16, 0xbf]
    ensures WordBytes(0x8f01cfea) == [0x8f, 0x01, 0xcf, 0xea]
    ensures WordBytes(0x414140de) == [0x41, 0x41, 0x40, 0xde]
    ensures WordBytes(0x5dae2223) == [0x5d, 0xae, 0x22, 0x23]
    ensures WordBytes(0xb00361a3) == [0xb0, 0x03, 0x61, 0xa3]
    ensures WordBytes(0x96177a9c) == [0x96, 0x17, 0x7a, 0x9c]
    ensures WordBytes(0xb410ff61) == [0xb4, 0x10, 0xff, 0x61]
    ensures WordBytes(0xf20015ad) == [0xf2, 0x00, 0x15, 0xad]
  {
  }

  /** The example of FIPS 180-4: the digest of "abc". */
  lemma {:induction false} DigestOfAbc()
    ensures Digest(ABC) == [
              0xba, 0x78, 0x16, 0xbf, 0x8f, 0x01, 0xcf, 0xea,
              0x41, 0x41, 0x40, 0xde, 0x5d, 0xae, 0x22, 0x23,
              0xb0, 0x03, 0x61, 0xa3, 0x96, 0x17, 0x7a, 0x9c,
              0xb4, 0x10, 0xff, 0x61, 0xf2, 0x00, 0x15, 0xad]
  {
    hide Schedule, Pad, Rounds, AddRegs, AllBytes, WordBytes;
    PaddedAbc();
    var w := Schedule(Pad(ABC), 0, 64);
    HashOfAbc(w);
    var hash := AddRegs(H0, Rounds(H0, w, 64));
    assert Blocks(Pad(ABC), 1) == hash by { assert Blocks(Pad(ABC), 0) == H0; }
    DigestBytes(hash);
    BytesOfHash();
  }
}
