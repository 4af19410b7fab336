// The frame checksum: the XOR of every covered 32-bit little-endian word of a frame.
module Chkval {
  import opened Bits
  import opened Bytes
  import opened FrameCrypto

  function XorSum(s: seq<nat>): nat
  {
    if |s| == 0 then 0 else Xor(XorSum(s[..|s| - 1]), s[|s| - 1])
  }

  function Dword(f: seq<byte>, i: nat): nat
    requires 4 * i + 4 <= |f|
  {
    U32(f, 4 * i)
  }

  // Covered word j: the flags without their top byte, words 0..3, then words 6, 7, ...
  function Covered(f: seq<byte>): (s: seq<nat>)
    requires |f| >= CRYPTO_HDR
    ensures |s| == |f| / 4 - 1
  {
    [Dword(f, 5) % 0x100_0000, Dword(f, 0), Dword(f, 1), Dword(f, 2), Dword(f, 3)]
    + seq(|f| / 4 - 6, j requires 0 <= j < |f| / 4 - 6 => Dword(f, j + 6))
  }

  function Value(f: seq<byte>): nat
    requires |f| >= CRYPTO_HDR
  {
    XorSum(Covered(f))
  }

  lemma {:induction false} XorSumBound(s: seq<nat>)
    requires forall i :: 0 <= i < |s| ==> s[i] < Pow2(32)
    ensures XorSum(s) < Pow2(32)
  {
    if |s| > 0 {
      XorSumBound(s[..|s| - 1]);
      XorBound(XorSum(s[..|s| - 1]), s[|s| - 1], 32);
    }
  }

  lemma {:induction false} CoveredFits(f: seq<byte>, i: nat)
    requires |f| >= CRYPTO_HDR && i < |f| / 4 - 1
    ensures Covered(f)[i] < 0x1_0000_0000
  {
    hide LE, U32;
    var d := if i == 0 then 5 else if i < 5 then i - 1 else i + 1;
    U32Bound(f, 4 * d);
    assert i > 0 ==> Covered(f)[i] == Dword(f, d);
  }

  lemma {:induction false} ValueBound(f: seq<byte>)
    requires |f| >= CRYPTO_HDR
    ensures Value(f) < 0x1_0000_0000
  {
    hide Pow2, XorSum, Covered;
    WordSizes();
    forall i | 0 <= i < |Covered(f)| ensures Covered(f)[i] < Pow2(32) {
      CoveredFits(f, i);
    }
    XorSumBound(Covered(f));
  }

  lemma {:induction false} XorSumSnoc(s: seq<nat>, v: nat)
    ensures XorSum(s + [v]) == Xor(XorSum(s), v)
  {
    assert (s + [v])[..|s|] == s;
  }

  // ---------------------------------------------------------------- the two loops

  // compute_chkval
  method Compute(f: seq<byte>) returns (chk: nat)
    requires |f| >= CRYPTO_HDR
    ensures chk == Value(f)
  {
    hide Xor, LE, XorSum;
    chk := StartXor(Dword(f, 5) % 0x100_0000, f);
    for i := 6 to |f| / 4
      invariant chk == XorSum(Covered(f)[..i - 1])
    {
      XorSumSnoc(Covered(f)[..i - 1], Dword(f, i));
      assert Covered(f)[..i] == Covered(f)[..i - 1] + [Dword(f, i)];
      chk := Xor(chk, Dword(f, i));
    }
    assert Covered(f)[..|f| / 4 - 1] == Covered(f);
    chk := MaskWord(f, chk);
  }

  // The inline loop of build_list_resp, which walks byte offsets and takes the flags as given.
  method ComputeInline(f: seq<byte>, optFlags: nat) returns (chk: nat)
    requires |f| >= CRYPTO_HDR && U32(f, 0x14) == optFlags
    ensures chk == Value(f)
  {
    hide Xor, LE, XorSum;
    chk := StartXor(optFlags % 0x100_0000, f);
    var off := 0x18;
    while off < |f| - 3
      invariant 0x18 <= off && off % 4 == 0 && off / 4 <= |f| / 4
      invariant chk == XorSum(Covered(f)[..off / 4 - 1])
    {
      var i := off / 4;
      XorSumSnoc(Covered(f)[..i - 1], Dword(f, i));
      assert Covered(f)[..i] == Covered(f)[..i - 1] + [Dword(f, i)];
      chk := Xor(chk, U32(f, off));
      off := off + 4;
    }
    assert Covered(f)[..off / 4 - 1] == Covered(f);
    chk := MaskWord(f, chk);
  }

  // flags ^ d[0] ^ d[1] ^ d[2] ^ d[3]
  method StartXor(flags: nat, f: seq<byte>) returns (chk: nat)
    requires |f| >= CRYPTO_HDR && flags == Dword(f, 5) % 0x100_0000
    ensures chk == XorSum(Covered(f)[..5])
  {
    chk := Xor(Xor(Xor(Xor(flags, U32(f, 0)), U32(f, 4)), U32(f, 8)), U32(f, 0xC));
    hide Xor, LE;
    XorComm(0, flags);
    XorZero(flags);
    XorSumSnoc([], flags);
    XorSumSnoc([flags], Dword(f, 0));
    XorSumSnoc([flags, Dword(f, 0)], Dword(f, 1));
    XorSumSnoc([flags, Dword(f, 0), Dword(f, 1)], Dword(f, 2));
    XorSumSnoc([flags, Dword(f, 0), Dword(f, 1), Dword(f, 2)], Dword(f, 3));
    assert [] + [flags] == [flags];
    assert [flags] + [Dword(f, 0)] == [flags, Dword(f, 0)];
    assert [flags, Dword(f, 0)] + [Dword(f, 1)] == [flags, Dword(f, 0), Dword(f, 1)];
    assert [flags, Dword(f, 0), Dword(f, 1)] + [Dword(f, 2)]
        == [flags, Dword(f, 0), Dword(f, 1), Dword(f, 2)];
    assert Covered(f)[..5] == [flags, Dword(f, 0), Dword(f, 1), Dword(f, 2)] + [Dword(f, 3)];
  }

  // chk & 0xFFFFFFFF
  method MaskWord(f: seq<byte>, chk: nat) returns (r: nat)
    requires |f| >= CRYPTO_HDR && chk == Value(f)
    ensures r == chk
  {
    ValueBound(f);
    r := chk % 0x1_0000_0000;
  }

  // ---------------------------------------------------------------- what the value depends on

  // The stored checksum (bytes 0x10..0x13) and the top flags byte (0x17) do not count, so
  // storing the value leaves it valid.
  lemma {:induction false} IgnoresStoredValue(f: seq<byte>, g: seq<byte>)
    requires |f| == |g| >= CRYPTO_HDR
    requires f[..0x10] == g[..0x10] && f[0x14..0x17] == g[0x14..0x17] && f[0x18..] == g[0x18..]
    ensures Value(f) == Value(g)
  {
    hide XorSum, LE;
    LowBytes(f[0x14..0x18]);
    LowBytes(g[0x14..0x18]);
    assert f[0x14..0x18][..3] == f[0x14..0x17] && g[0x14..0x18][..3] == g[0x14..0x17];
    forall i | 0 <= i < 4 ensures Dword(f, i) == Dword(g, i) {
      assert f[4 * i..4 * i + 4] == f[..0x10][4 * i..4 * i + 4];
      assert g[4 * i..4 * i + 4] == g[..0x10][4 * i..4 * i + 4];
    }
    forall i | 6 <= i < |f| / 4 ensures Dword(f, i) == Dword(g, i) {
      assert f[4 * i..4 * i + 4] == f[0x18..][4 * i - 0x18..4 * i - 0x14];
      assert g[4 * i..4 * i + 4] == g[0x18..][4 * i - 0x18..4 * i - 0x14];
    }
    assert Covered(f) == Covered(g);
  }

  lemma {:induction false} LowBytes(s: seq<byte>)
    requires |s| == 4
    ensures LE(s) % 0x100_0000 == LE(s[..3])
  {
    assert LE(s) == s[0] + 256 * LE(s[1..]);
    assert LE(s[1..]) == s[1] + 256 * LE(s[2..]);
    assert LE(s[2..]) == s[2] + 256 * LE(s[3..]);
    assert LE(s[3..]) == s[3];
    var t := s[..3];
    assert LE(t) == t[0] + 256 * LE(t[1..]);
    assert LE(t[1..]) == t[1] + 256 * LE(t[2..]);
    assert LE(t[2..]) == t[2];
  }

  // Changing one covered word changes the value by exactly the XOR of the old and new word.
  lemma {:induction false} OneWordChange(s: seq<nat>, i: nat, v: nat)
    requires i < |s|
    ensures XorSum(s[i := v]) == Xor(XorSum(s), Xor(s[i], v))
  {
    hide Xor;
    var n := |s| - 1;
    var rest := XorSum(s[..n]);
    if i == n {
      assert s[i := v][..n] == s[..n];
      XorAssoc(rest, s[n], Xor(s[n], v));
      XorAssoc(s[n], s[n], v);
      XorSelf(s[n]);
      XorComm(0, v);
      XorZero(v);
    } else {
      assert s[i := v][..n] == s[..n][i := v];
      OneWordChange(s[..n], i, v);
      XorAssoc(rest, Xor(s[i], v), s[n]);
      XorComm(Xor(s[i], v), s[n]);
      XorAssoc(rest, s[n], Xor(s[i], v));
    }
  }

  // What word i contributes: all of it, or for the flags its low 24 bits.
  function Contribution(i: nat, v: nat): nat {
    if i == 5 then v % 0x100_0000 else v
  }

  // Of the flags, bytes 0x14, 0x15 and 0x16 contribute.
  lemma {:induction false} FlagsContribution(w: seq<byte>)
    requires |w| == 4
    ensures Contribution(5, LE(w)) == w[0] + 0x100 * (w[1] as int) + 0x1_0000 * (w[2] as int)
  {
    LowBytes(w);
    var t := w[..3];
    assert LE(t) == t[0] + 256 * LE(t[1..]);
    assert LE(t[1..]) == t[1] + 256 * LE(t[2..]);
    assert LE(t[2..]) == t[2];
  }

  // A frame of zeros has checksum 0; with the change of one word this gives the checksum of
  // every frame.
  lemma {:induction false} ZeroFrame(n: nat)
    requires n >= CRYPTO_HDR
    ensures Value(Zeros(n)) == 0
  {
    hide LE, XorSum;
    forall i | 0 <= i < n / 4 ensures Dword(Zeros(n), i) == 0 {
      assert Zeros(n)[4 * i..4 * i + 4] == [] + Zeros(4);
      LEOfPadded([], 4);
      NoBytes();
    }
    assert Covered(Zeros(n)) == seq(n / 4 - 1, _ => 0);
    XorSumOfZeros(n / 4 - 1);
  }

  lemma {:induction false} NoBytes()
    ensures LE([]) == 0
  {
  }

  lemma {:induction false} XorSumOfZeros(n: nat)
    ensures XorSum(seq(n, _ => 0)) == 0
  {
    if n > 0 {
      XorSumOfZeros(n - 1);
      assert seq(n, _ => 0)[..n - 1] == seq(n - 1, _ => 0);
    }
  }

  lemma {:induction false} CoveredWordChange(f: seq<byte>, i: nat, w: seq<byte>)
    requires |f| >= CRYPTO_HDR && i < |f| / 4 && i != 4 && |w| == 4
    ensures Value(Put(f, 4 * i, w))
         == Xor(Value(f), Xor(Contribution(i, Dword(f, i)), Contribution(i, LE(w))))
  {
    hide XorSum, LE, Xor, Put;
    var g := Put(f, 4 * i, w);
    var j := if i == 5 then 0 else if i < 4 then i + 1 else i - 1;
    var v := Contribution(i, LE(w));
    assert g[4 * i..4 * i + 4] == w;
    forall k | 0 <= k < |Covered(f)| ensures Covered(g)[k] == Covered(f)[j := v][k] {
      var d := if k == 0 then 5 else if k < 5 then k - 1 else k + 1;
      assert d != i ==> g[4 * d..4 * d + 4] == f[4 * d..4 * d + 4];
    }
    assert Covered(g) == Covered(f)[j := v];
    OneWordChange(Covered(f), j, v);
  }
}
