// Known answers.  One pins the whole 32-bit cipher: the vector of RFC 2040, section 9, for one round,
// the key 11 and a block of zeros.  Every constant, rotation, addition and byte order counts in it.
module KnownAnswer {
  import opened Bits
  import opened Bytes
  import opened Words
  import opened Rc5
  import opened KeySchedule
  import Certify

  function Ops(): WordOps { SourceWords(4) }

  // n steps of the mixing loop.
  function Turns(m: Mix, n: nat): (r: Mix)
    requires m.InRange()
    ensures r.InRange() && |r.s| == |m.s| && |r.l| == |m.l|
  {
    if n == 0 then m else MixStep(Ops(), Turns(m, n - 1))
  }

  lemma {:induction false} MixedIsTurns(s: seq<nat>, l: seq<nat>, n: nat)
    requires |s| > 0 && |l| > 0
    ensures Mixed(Ops(), s, l, n) == Turns(Mix(s, l, 0, 0, 0, 0), n)
  {
    hide MixStep, Ops;
    if n > 0 { MixedIsTurns(s, l, n - 1); }
  }

  lemma {:induction false} TurnsInParts(m: Mix, a: nat, b: nat)
    requires m.InRange()
    ensures Turns(Turns(m, a), b) == Turns(m, a + b)
  {
    hide MixStep, Ops;
    if b > 0 { TurnsInParts(m, a, b - 1); }
  }

  // The word v = high * 2^(32-k) + low, rotated by n.
  lemma {:induction false} Rotated(v: nat, n: nat, k: nat, high: nat, low: nat)
    requires k == n % 32 && high < Pow2(k) && low < Pow2(32 - k) && v == high * Pow2(32 - k) + low
    ensures Ops().rotl(v, n) == low * Pow2(k) + high
  {
    hide Pow2, RotL, Amount;
    AmountIsRemainder(n);
    RotLMeans(32, n, k, high, low);
  }

  lemma {:induction false} Masked(v: nat)
    ensures Ops().mask(v) == v % 0x1_0000_0000
  {
    hide Low;
    Low32(v);
  }

  // One step of the mixing loop, with both rotations worked out.
  lemma {:induction false} Turned(m: Mix, a: nat, b: nat, k: nat, high: nat, low: nat) returns (next: Mix)
    requires m.InRange() && k < 32 && high < Pow2(k) && low < Pow2(32 - k)
    requires var x := (m.s[m.i] + m.a + m.b) % 0x1_0000_0000;
             a == (x % 0x2000_0000) * 8 + x / 0x2000_0000
    requires (m.l[m.j] + a + m.b) % 0x1_0000_0000 == high * Pow2(32 - k) + low
    requires ((a + m.b) % 0x1_0000_0000) % 32 == k && b == low * Pow2(k) + high
    ensures next == MixStep(Ops(), m)
    ensures next == Mix(m.s[m.i := a], m.l[m.j := b], a, b, Next(m.i, |m.s|), Next(m.j, |m.l|))
  {
    hide Ops, Pow2;
    var x := (m.s[m.i] + m.a + m.b) % 0x1_0000_0000;
    Masked(m.s[m.i] + m.a + m.b);
    Small();
    Rotated(x, 3, 3, x / 0x2000_0000, x % 0x2000_0000);
    Masked(m.l[m.j] + a + m.b);
    Masked(a + m.b);
    Rotated(high * Pow2(32 - k) + low, (a + m.b) % 0x1_0000_0000, k, high, low);
    next := MixStep(Ops(), m);
  }

  lemma {:induction false} Small()
    ensures Pow2(3) == 8 && Pow2(29) == 0x2000_0000
  {
    WordSizes();
    assert Pow2(32) == 8 * Pow2(29);
  }

  ghost predicate Leads(m: Mix, r: Mix, n: nat) {
    m.InRange() && Turns(m, n) == r
  }

  lemma {:induction false} FourTurns(m: Mix, m1: Mix, m2: Mix, m3: Mix, m4: Mix)
    requires m.InRange() && m1 == MixStep(Ops(), m) && m2 == MixStep(Ops(), m1)
    requires m3 == MixStep(Ops(), m2) && m4 == MixStep(Ops(), m3)
    ensures Leads(m, m4, 4)
  {
    hide MixStep, Ops;
    assert Turns(m, 1) == m1;
    assert Turns(m, 2) == m2;
    assert Turns(m, 3) == m3;
  }

  lemma {:induction false} Powers()
    ensures Pow2(1) == 2 && Pow2(2) == 4 && Pow2(3) == 8 && Pow2(4) == 0x10 && Pow2(5) == 0x20 && Pow2(6) == 0x40
    ensures Pow2(9) == 0x200 && Pow2(10) == 0x400 && Pow2(13) == 0x2000 && Pow2(15) == 0x8000
    ensures Pow2(17) == 0x2_0000 && Pow2(19) == 0x8_0000 && Pow2(22) == 0x40_0000 && Pow2(23) == 0x80_0000
    ensures Pow2(26) == 0x400_0000 && Pow2(27) == 0x800_0000 && Pow2(28) == 0x1000_0000
    ensures Pow2(29) == 0x2000_0000 && Pow2(30) == 0x4000_0000 && Pow2(31) == 0x8000_0000
  {
  }

  lemma {:induction false} StepsOne()
    ensures Leads(Mix([0xB7E1_5163, 0x5618_CB1C, 0xF450_44D5, 0x9287_BE8E], [0x11], 0, 0, 0, 0),
                  Mix([0xBF0A_8B1D, 0x6825_3CF7, 0x6F9F_FE43, 0x5BB1_CF76], [0x4D87_7276],
                      0x5BB1_CF76, 0x4D87_7276, 0, 0),
                  4)
  {
    hide MixStep, Ops, Pow2;
    Powers();
    var m := Mix([0xB7E1_5163, 0x5618_CB1C, 0xF450_44D5, 0x9287_BE8E], [0x11], 0, 0, 0, 0);
    var m1 := Turned(m, 0xBF0A_8B1D, 0xD7E1_5165, 29, 0x17E1_5165, 6);
    var m2 := Turned(m1, 0x6825_3CF7, 0x117E_7DFC, 28, 0x17E_7DFC, 1);
    var m3 := Turned(m2, 0x6F9F_FE43, 0xC94E_7D1D, 31, 0x494E_7D1D, 1);
    var m4 := Turned(m3, 0x5BB1_CF76, 0x4D87_7276, 19, 0x7_7276, 0x9B0);
    FourTurns(m, m1, m2, m3, m4);
  }

  lemma {:induction false} StepsTwo()
    ensures Leads(Mix([0xBF0A_8B1D, 0x6825_3CF7, 0x6F9F_FE43, 0x5BB1_CF76], [0x4D87_7276],
                      0x5BB1_CF76, 0x4D87_7276, 0, 0),
                  Mix([0x421E_684B, 0x24F1_FD8B, 0xD7C4_C4B9, 0x2DF4_6ADE], [0x1174_D94A],
                      0x2DF4_6ADE, 0x1174_D94A, 0, 0),
                  4)
  {
    hide MixStep, Ops, Pow2;
    Powers();
    var m := Mix([0xBF0A_8B1D, 0x6825_3CF7, 0x6F9F_FE43, 0x5BB1_CF76], [0x4D87_7276], 0x5BB1_CF76, 0x4D87_7276, 0, 0);
    var m1 := Turned(m, 0x421E_684B, 0xBA5A_9A6F, 1, 1, 0x5D2D_4D37);
    var m2 := Turned(m1, 0x24F1_FD8B, 0xA666_9CC9, 26, 0x266_9CC9, 0x29);
    var m3 := Turned(m2, 0xD7C4_C4B9, 0x9247_F92C, 2, 0, 0x2491_FE4B);
    var m4 := Turned(m3, 0x2DF4_6ADE, 0x1174_D94A, 10, 0x14A, 0x4_5D36);
    FourTurns(m, m1, m2, m3, m4);
  }

  lemma {:induction false} StepsThree()
    ensures Leads(Mix([0x421E_684B, 0x24F1_FD8B, 0xD7C4_C4B9, 0x2DF4_6ADE], [0x1174_D94A],
                      0x2DF4_6ADE, 0x1174_D94A, 0, 0),
                  Mix([0xC3D_639C, 0xD7A7_6997, 0xE1B1_A82A, 0x6A47_6E91], [0x2D2C_6921],
                      0x6A47_6E91, 0x2D2C_6921, 0, 0),
                  4)
  {
    hide MixStep, Ops, Pow2;
    Powers();
    var m := Mix([0x421E_684B, 0x24F1_FD8B, 0xD7C4_C4B9, 0x2DF4_6ADE], [0x1174_D94A], 0x2DF4_6ADE, 0x1174_D94A, 0, 0);
    var m1 := Turned(m, 0xC3D_639C, 0xC9C5_8C0B, 6, 0xB, 0x327_1630);
    var m2 := Turned(m1, 0xD7A7_6997, 0xACCA_06B5, 2, 1, 0x2B32_81AD);
    var m3 := Turned(m2, 0xE1B1_A82A, 0x1DA2_DACA, 31, 0x1DA2_DACA, 0);
    var m4 := Turned(m3, 0x6A47_6E91, 0x2D2C_6921, 27, 0x52C_6921, 5);
    FourTurns(m, m1, m2, m3, m4);
  }

  // The table S of one round, before mixing.
  lemma {:induction false} FirstTable()
    ensures InitialTable(Ops(), 4) == [0xB7E1_5163, 0x5618_CB1C, 0xF450_44D5, 0x9287_BE8E]
    ensures KeyWords(4, [0x11]) == [0x11]
  {
    hide Low, RotL, RotR, Xor;
    var p, q: nat := 0xB7E1_5163, 0x9E37_79B9;
    Masked(p);
    Masked(p + q);
    Masked(0x5618_CB1C + q);
    Masked(0xF450_44D5 + q);
    assert Ops().u == 4;
    hide Ops;
    assert InitialTable(Ops(), 1) == [0xB7E1_5163];
    assert InitialTable(Ops(), 2) == [0xB7E1_5163, 0x5618_CB1C];
    assert InitialTable(Ops(), 3) == [0xB7E1_5163, 0x5618_CB1C, 0xF450_44D5];
    OneByteWord();
  }

  lemma {:induction false} FourByteWords()
    ensures Ops().u == 4
  {
    hide Pow2;
  }

  lemma {:induction false} OneByteWord()
    ensures KeyWords(4, [0x11]) == [0x11]
  {
    var key: seq<byte> := [0x11];
    assert WordBytes(4, key, 0) == key;
    assert LE(key) == 0x11;
  }

  const TABLE: seq<nat> := [0xC3D_639C, 0xD7A7_6997, 0xE1B1_A82A, 0x6A47_6E91]

  // The table S after 12 mixing steps.
  lemma {:induction false} ExpandedKey()
    ensures Expand(Ops(), 1, [0x11]) == Key(Ops(), 1, TABLE)
  {
    FourByteWords();
    hide MixStep, Ops, InitialTable, KeyWords, Turns, Mixed;
    FirstTable();
    StepsOne();
    StepsTwo();
    StepsThree();
    var m := Mix([0xB7E1_5163, 0x5618_CB1C, 0xF450_44D5, 0x9287_BE8E], [0x11], 0, 0, 0, 0);
    TurnsInParts(m, 4, 4);
    TurnsInParts(m, 8, 4);
    MixedIsTurns(m.s, m.l, 12);
  }

  // The two XORs of the round, byte by byte.
  lemma {:induction false} Xors()
    ensures Xor(0xC3D_639C, 0xD7A7_6997) == 0xDB9A_0A0B
    ensures Xor(0xD7A7_6997, 0xE79F_752F) == 0x3038_1CB8
  {
    hide Xor;
    ByteXors();
    XorBytes4(0x0C, 0x3D, 0x63, 0x9C, 0xD7, 0xA7, 0x69, 0x97);
    XorBytes4(0xD7, 0xA7, 0x69, 0x97, 0xE7, 0x9F, 0x75, 0x2F);
  }

  lemma {:induction false} ByteXors()
    ensures Xor(0x0C, 0xD7) == 0xDB && Xor(0x3D, 0xA7) == 0x9A && Xor(0x63, 0x69) == 0x0A && Xor(0x9C, 0x97) == 0x0B
    ensures Xor(0xD7, 0xE7) == 0x30 && Xor(0xA7, 0x9F) == 0x38 && Xor(0x69, 0x75) == 0x1C && Xor(0x97, 0x2F) == 0xB8
  {
    hide Xor;
    Digits();
    XorOfDigits(0, 0, 3, 0, 3, 1, 1, 3);
    XorOfDigits(0, 3, 3, 1, 2, 2, 1, 3);
    XorOfDigits(1, 2, 0, 3, 1, 2, 2, 1);
    XorOfDigits(2, 1, 3, 0, 2, 1, 1, 3);
    XorOfDigits(3, 1, 1, 3, 3, 2, 1, 3);
    XorOfDigits(2, 2, 1, 3, 2, 1, 3, 3);
    XorOfDigits(1, 2, 2, 1, 1, 3, 1, 1);
    XorOfDigits(2, 1, 1, 3, 0, 2, 3, 3);
  }

  // A byte by its four base-4 digits.
  lemma {:induction false} XorOfDigits(a3: nat, a2: nat, a1: nat, a0: nat, b3: nat, b2: nat, b1: nat, b0: nat)
    requires a3 < 4 && a2 < 4 && a1 < 4 && a0 < 4 && b3 < 4 && b2 < 4 && b1 < 4 && b0 < 4
    ensures Xor(((a3 * 4 + a2) * 4 + a1) * 4 + a0, ((b3 * 4 + b2) * 4 + b1) * 4 + b0)
         == ((Xor(a3, b3) * 4 + Xor(a2, b2)) * 4 + Xor(a1, b1)) * 4 + Xor(a0, b0)
  {
    hide Xor;
    XorOfPairs(a3, a2, b3, b2);
    XorOfPairs(a3 * 4 + a2, a1, b3 * 4 + b2, b1);
    XorOfPairs((a3 * 4 + a2) * 4 + a1, a0, (b3 * 4 + b2) * 4 + b1, b0);
  }

  lemma {:induction false} Digits()
    ensures forall a :: 0 <= a < 4 ==> Xor(a, 0) == a && Xor(0, a) == a && Xor(a, a) == 0
    ensures Xor(1, 2) == 3 == Xor(2, 1) && Xor(1, 3) == 2 == Xor(3, 1) && Xor(2, 3) == 1 == Xor(3, 2)
  {
    forall a | 0 <= a < 4 ensures Xor(a, 0) == a && Xor(0, a) == a && Xor(a, a) == 0 {
      XorZero(a);
      XorComm(a, 0);
      XorSelf(a);
    }
    assert Xor(1, 0) == 1 && Xor(0, 1) == 1 && Xor(1, 1) == 0;
  }

  lemma {:induction false} XorBytes4(a3: nat, a2: byte, a1: byte, a0: byte, b3: nat, b2: byte, b1: byte, b0: byte)
    ensures Xor(((a3 * 0x100 + a2) * 0x100 + a1) * 0x100 + a0,
                ((b3 * 0x100 + b2) * 0x100 + b1) * 0x100 + b0)
         == ((Xor(a3, b3) * 0x100 + Xor(a2, b2)) * 0x100 + Xor(a1, b1)) * 0x100 + Xor(a0, b0)
  {
    hide Xor;
    XorOfBytes(a3, a2, b3, b2);
    XorOfBytes(a3 * 0x100 + a2, a1, b3 * 0x100 + b2, b1);
    XorOfBytes((a3 * 0x100 + a2) * 0x100 + a1, a0, (b3 * 0x100 + b2) * 0x100 + b1, b0);
  }

  // One round, after the whitening.
  lemma {:induction false} OneRound()
    ensures Forward(Key(Ops(), 1, TABLE), 1, Block(0, 0)) == Block(0xE79F_752F, 0x78A3_86AD)
  {
    hide Pow2, Xor, Low, RotL, RotR;
    var k := Key(Ops(), 1, TABLE);
    var white := Block(0xC3D_639C, 0xD7A7_6997);
    Masked(0xC3D_639C);
    Masked(0xD7A7_6997);
    assert Forward(k, 0, Block(0, 0)) == white;
    Xors();
    hide Ops;
    XorIsXor(0xC3D_639C, 0xD7A7_6997);
    XorIsXor(0xD7A7_6997, 0xE79F_752F);
    Powers();
    Rotated(0xDB9A_0A0B, 0xD7A7_6997, 23, 0x6D_CD05, 0xB);
    Masked(0xB * 0x80_0000 + 0x6D_CD05 + 0xE1B1_A82A);
    Rotated(0x3038_1CB8, 0xE79F_752F, 15, 0x181C, 0x1CB8);
    Masked(0x1CB8 * 0x8000 + 0x181C + 0x6A47_6E91);
    assert Round(k, 1, white) == Block(0xE79F_752F, 0x78A3_86AD);
  }

  lemma {:induction false} XorIsXor(a: nat, b: nat)
    ensures Ops().xor(a, b) == Xor(a, b)
  {
    hide Low, RotL, RotR, Xor, Pow2;
  }

  // RC5-32/1 with the key 11 encrypts zeros to 2F 75 9F E7 AD 86 A3 78.
  lemma {:induction false} Rfc2040Vector()
    ensures
      var k := Expand(SourceWords(4), 1, [0x11]);
      k.BlockBytes() == 8 && EncryptBlock(k, Zeros(8)) == [0x2F, 0x75, 0x9F, 0xE7, 0xAD, 0x86, 0xA3, 0x78]
  {
    ExpandedKey();
    OneRound();
    Ends();
  }

  lemma {:induction false} Ends()
    ensures Key(Ops(), 1, TABLE).BlockBytes() == 8
    ensures Load(Key(Ops(), 1, TABLE), Zeros(8)) == Block(0, 0)
    ensures Store(Key(Ops(), 1, TABLE), Block(0xE79F_752F, 0x78A3_86AD))
         == [0x2F, 0x75, 0x9F, 0xE7, 0xAD, 0x86, 0xA3, 0x78]
  {
    hide Low, RotL, RotR, Xor, Pow2;
    assert Zeros(8)[..4] == Zeros(4) && Zeros(8)[4..] == Zeros(4);
    LEOfPadded([], 4);
    assert [] + Zeros(4) == Zeros(4);
    assert ToLE(0xE79F_752F, 4) == [0x2F, 0x75, 0x9F, 0xE7];
    assert ToLE(0x78A3_86AD, 4) == [0xAD, 0x86, 0xA3, 0x78];
  }

  // ---------------------------------------------------------------- the key hash

  // The hash of the one byte 'a': the start value h and h ^ (0x61 + 32 h + (h >> 2)) on 32 bits.
  lemma {:induction false} HashOfOneByte()
    ensures Certify.Giot([]) == 0x4E67_C6A7
    ensures Certify.Giot([0x61]) == 0xAEF5_004D
  {
    HashXor();
    hide Xor;
    assert [0x61][..0] == [];
    assert 0x61 + 0x4E67_C6A7 * 0x20 + 0x4E67_C6A7 / 4 == 0x9_E092_C6EA;
    assert Certify.GiotStep(0x4E67_C6A7, 0x61) == 0x9_AEF5_004D % 0x1_0000_0000;
  }

  lemma {:induction false} HashXor()
    ensures Xor(0x4E67_C6A7, 0x9_E092_C6EA) == 0x9_AEF5_004D
  {
    hide Xor;
    Digits();
    XorComm(0, 9);
    XorZero(9);
    XorOfBytes(0, 0x4E, 9, 0xE0);
    XorOfDigits(1, 0, 3, 2, 3, 2, 0, 0);
    XorOfDigits(1, 2, 1, 3, 2, 1, 0, 2);
    XorSelf(0xC6);
    XorOfDigits(2, 2, 1, 3, 3, 2, 2, 2);
    XorBytes4(0x4E, 0x67, 0xC6, 0xA7, 0x9E0, 0x92, 0xC6, 0xEA);
  }
}
