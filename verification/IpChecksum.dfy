// The IPv4 header checksum of the capture writer: a wide sum with only two folds, against the
// one's complement sum of RFC 1071, section 1.
module IpChecksum {
  import opened Bytes
  import opened Layout

  // ---------------------------------------------------------------- the sum as computed

  function Word(h: seq<byte>, i: nat): nat
    requires 2 * i + 1 < |h|
  {
    0x100 * (h[2 * i] as int) + h[2 * i + 1]
  }

  // The wide sum of the first n words.
  function SumTo(h: seq<byte>, n: nat): nat
    requires 2 * n <= |h|
  {
    if n == 0 then 0 else SumTo(h, n - 1) + Word(h, n - 1)
  }

  // A header of odd length gets a zero byte.
  function Padded(h: seq<byte>): (p: seq<byte>)
    ensures |p| % 2 == 0
  {
    if |h| % 2 == 1 then h + [0] else h
  }

  function Total(h: seq<byte>): nat { SumTo(Padded(h), |Padded(h)| / 2) }

  // The last byte of an odd-length header is the high byte of a word.
  lemma {:induction false} OddLength(h: seq<byte>)
    requires |h| % 2 == 1
    ensures Total(h) == SumTo(h, |h| / 2) + 0x100 * (h[|h| - 1] as int)
  {
    var n := |h| / 2;
    SumOfPrefix(h, [0], n);
    assert Word(h + [0], n) == 0x100 * (h[|h| - 1] as int);
  }

  lemma {:induction false} SumOfPrefix(h: seq<byte>, more: seq<byte>, n: nat)
    requires 2 * n <= |h|
    ensures SumTo(h + more, n) == SumTo(h, n)
  {
    if n > 0 {
      SumOfPrefix(h, more, n - 1);
      assert Word(h + more, n - 1) == Word(h, n - 1);
    }
  }

  // s = (s >> 16) + (s & 0xFFFF)
  function FoldOnce(s: nat): nat { s / 0x1_0000 + s % 0x1_0000 }

  // s += s >> 16; ~s & 0xFFFF
  function Finish(t: nat): (r: nat)
    ensures r <= 0xFFFF
  {
    0xFFFF - (t + t / 0x1_0000) % 0x1_0000
  }

  // The loop of _ip_checksum.
  method WideSum(hdr: seq<byte>) returns (s: nat)
    ensures s == Total(hdr)
  {
    var h := if |hdr| % 2 == 1 then hdr + [0] else hdr;
    s := 0;
    var i := 0;
    while i < |h|
      invariant i <= |h| && i % 2 == 0
      invariant s == SumTo(h, i / 2)
    {
      assert Word(h, i / 2) == 0x100 * (h[i] as int) + h[i + 1];
      s := s + 0x100 * (h[i] as int) + h[i + 1];
      i := i + 2;
    }
  }

  // _ip_checksum
  method Compute(hdr: seq<byte>) returns (r: nat)
    ensures r == Finish(FoldOnce(Total(hdr)))
  {
    hide Total;
    var s := WideSum(hdr);
    s := s / 0x1_0000 + s % 0x1_0000;
    s := s + s / 0x1_0000;
    r := 0xFFFF - s % 0x1_0000;
  }

  // ---------------------------------------------------------------- the sum as the RFC has it

  // 16-bit addition with end-around carry.
  function OnesAdd(a: nat, b: nat): nat {
    if a + b > 0xFFFF then a + b - 0xFFFF else a + b
  }

  function OnesSum(h: seq<byte>, n: nat): nat
    requires 2 * n <= |h|
  {
    if n == 0 then 0 else OnesAdd(OnesSum(h, n - 1), Word(h, n - 1))
  }

  // The 16-bit representative of a wide sum: 0 only for 0.
  function Rep(s: nat): (r: nat)
    ensures r <= 0xFFFF && (r == 0 <==> s == 0)
  {
    if s == 0 then 0 else 1 + (s - 1) % 0xFFFF
  }

  lemma {:induction false} OnesSumIsRep(h: seq<byte>, n: nat)
    requires 2 * n <= |h|
    ensures OnesSum(h, n) == Rep(SumTo(h, n))
  {
    if n > 0 {
      OnesSumIsRep(h, n - 1);
      RepAdds(SumTo(h, n - 1), Word(h, n - 1));
    }
  }

  lemma {:induction false} RepAdds(s: nat, w: nat)
    requires w <= 0xFFFF
    ensures Rep(s + w) == OnesAdd(Rep(s), w)
  {
  }

  // Folding keeps the representative.
  lemma {:induction false} RepFolds(s: nat)
    ensures Rep(FoldOnce(s)) == Rep(s)
  {
    var q, r := s / 0x1_0000, s % 0x1_0000;
    if s > 0 {
      assert s - 1 == (q + r - 1) + q * 0xFFFF;
      RemShift(q + r - 1, q);
    }
  }

  lemma {:induction false} RemShift(a: nat, k: nat)
    ensures (a + k * 0xFFFF) % 0xFFFF == a % 0xFFFF
  {
  }

  // ---------------------------------------------------------------- when two folds are enough

  // What the second fold would be without its carry out of 16 bits.
  function SecondFold(s: nat): nat { FoldOnce(FoldOnce(s)) }

  // The last step keeps only the low half of the second fold.
  lemma {:induction false} FinishDropsCarry(s: nat)
    ensures Finish(FoldOnce(s)) == 0xFFFF - SecondFold(s) % 0x1_0000
  {
    var t := FoldOnce(s);
    var q, r := t / 0x1_0000, t % 0x1_0000;
    assert t + q == q * 0x1_0000 + (r + q);
    LowHalf(q, r + q);
  }

  lemma {:induction false} LowHalf(q: nat, u: nat)
    ensures (q * 0x1_0000 + u) % 0x1_0000 == u % 0x1_0000
  {
  }

  // The code meets RFC 1071 exactly when the second fold has no carry, or has a carry that is a
  // multiple of 65535 over a non-zero low half.
  lemma {:induction false} RightExactlyWhen(s: nat)
    ensures
      var carry, low := SecondFold(s) / 0x1_0000, SecondFold(s) % 0x1_0000;
      Finish(FoldOnce(s)) == 0xFFFF - Rep(s) <==> carry == 0 || (carry % 0xFFFF == 0 && low != 0)
  {
    RepFolds(s);
    RepFolds(FoldOnce(s));
    FinishDropsCarry(s);
    var u := SecondFold(s);
    var carry, low := u / 0x1_0000, u % 0x1_0000;
    RepFolds(u);
    assert FoldOnce(u) == carry + low && Rep(carry + low) == Rep(s);
    hide FoldOnce, SecondFold, Finish;
    LowIsRep(carry, low);
  }

  lemma {:induction false} LowIsRep(carry: nat, low: nat)
    requires low <= 0xFFFF
    ensures low == Rep(carry + low) <==> carry == 0 || (carry % 0xFFFF == 0 && low != 0)
  {
    if carry == 0 || low == 0 {
    } else {
      var q, r := carry / 0xFFFF, carry % 0xFFFF;
      assert carry + low - 1 == (r + low - 1) + q * 0xFFFF;
      RemShift(r + low - 1, q);
    }
  }

  lemma {:induction false} SumBound(h: seq<byte>, n: nat)
    requires 2 * n <= |h|
    ensures SumTo(h, n) <= n * 0xFFFF
  {
    if n > 0 { SumBound(h, n - 1); }
  }

  // Headers of up to 65538 words need no third fold.
  lemma {:induction false} TwoFoldsAreEnough(h: seq<byte>)
    requires |h| <= 2 * 65538
    ensures Finish(FoldOnce(Total(h))) == 0xFFFF - OnesSum(Padded(h), |Padded(h)| / 2)
  {
    var p := Padded(h);
    SumBound(p, |p| / 2);
    OnesSumIsRep(p, |p| / 2);
    NoCarry(Total(h));
    RightExactlyWhen(Total(h));
  }

  lemma {:induction false} NoCarry(s: nat)
    requires s <= 65538 * 0xFFFF
    ensures SecondFold(s) <= 0xFFFF
  {
  }

  // n words of 0xFFFF and a word of 1.
  function Long(n: nat): (h: seq<byte>)
    ensures |h| == 2 * n + 2
  {
    seq(2 * n, _ => 0xFF) + [0, 1]
  }

  lemma {:induction false} LongSum(n: nat, k: nat)
    requires k <= n
    ensures SumTo(Long(n), k) == k * 0xFFFF
  {
    if k > 0 {
      LongSum(n, k - 1);
      assert Word(Long(n), k - 1) == 0xFFFF;
    }
  }

  // One word more and the result can be wrong: here it is 0xFFFF instead of 0xFFFE.
  lemma {:induction false} LongHeaderFails(n: nat)
    requires n == 65538
    ensures var h := Long(n);
            |h| == 2 * 65539 && Finish(FoldOnce(Total(h))) == 0xFFFF && 0xFFFF - OnesSum(h, n + 1) == 0xFFFE
  {
    LongSum(n, n);
    var h := Long(n);
    assert Word(h, n) == 1;
    assert SumTo(h, n + 1) == 0x1_0000_FFFF;
    assert Padded(h) == h && |h| / 2 == n + 1;
    hide Long, FoldOnce, Finish, Rep, SumTo;
    OnesSumIsRep(h, n + 1);
    CarryLost();
  }

  lemma {:induction false} CarryLost()
    ensures Finish(FoldOnce(0x1_0000_FFFF)) == 0xFFFF && Rep(0x1_0000_FFFF) == 1
  {
  }

  // ---------------------------------------------------------------- storing the checksum

  lemma {:induction false} SumWithWord(h: seq<byte>, k: nat, c: nat, n: nat)
    requires 2 * n <= |h| && 2 * k + 2 <= |h| && c <= 0xFFFF && Word(h, k) == 0
    ensures SumTo(Put(h, 2 * k, ToBE16(c)), n) == SumTo(h, n) + if k < n then c else 0
  {
    var g := Put(h, 2 * k, ToBE16(c));
    if n > 0 {
      SumWithWord(h, k, c, n - 1);
      if n - 1 == k {
        assert g[2 * k..2 * k + 2] == ToBE16(c);
        assert g[2 * k] == g[2 * k..2 * k + 2][0] && g[2 * k + 1] == g[2 * k..2 * k + 2][1];
      } else {
        assert Word(g, n - 1) == Word(h, n - 1);
      }
    }
  }

  // A header with its checksum in a field that was zero sums up to zero for the receiver.
  lemma {:induction false} StoredChecksumVerifies(h: seq<byte>, k: nat)
    requires |h| % 2 == 0 && |h| <= 2 * 65538 && 2 * k + 2 <= |h| && Word(h, k) == 0
    ensures var c := Finish(FoldOnce(Total(h)));
            Finish(FoldOnce(Total(Put(h, 2 * k, ToBE16(c))))) == 0
  {
    hide FoldOnce, Finish, SumTo, OnesSum, Rep;
    var n := |h| / 2;
    var c := Finish(FoldOnce(Total(h)));
    var g := Put(h, 2 * k, ToBE16(c));
    TwoFoldsAreEnough(h);
    TwoFoldsAreEnough(g);
    OnesSumIsRep(h, n);
    OnesSumIsRep(g, n);
    SumWithWord(h, k, c, n);
    RepStored(Total(h));
  }

  lemma {:induction false} RepStored(s: nat)
    ensures Rep(s + (0xFFFF - Rep(s))) == 0xFFFF
  {
    hide Rep;
    RepAdds(s, 0xFFFF - Rep(s));
  }

  // ---------------------------------------------------------------- the header in write_udp

  function HeaderFields(total: nat, src: seq<byte>, dst: seq<byte>): (t: seq<Field>)
    requires total <= 0xFFFF && |src| == 4 && |dst| == 4
    ensures InOrder(20, t)
  {
    var t := [At(0, [0x45]), At(2, ToBE16(total)), At(8, [64]), At(9, [17]), At(12, src), At(16, dst)];
    AscendingInOrder(20, t);
    t
  }

  // The IPv4 header for a payload; None where the total length does not fit its field.
  method BuildHeader(payload: nat, src: seq<byte>, dst: seq<byte>) returns (hdr: Option<seq<byte>>)
    requires |src| == 4 && |dst| == 4
    ensures hdr.None? <==> payload > 0xFFFF - 28
    ensures hdr.Some? ==>
      var h := hdr.value;
      && |h| == 20 && h[0..1] == [0x45] && 0x100 * (h[2..4][0] as int) + h[2..4][1] == 28 + payload
      && h[1..2] == [0] && h[4..8] == [0, 0, 0, 0] && h[8..10] == [64, 17]
      && h[12..16] == src && h[16..20] == dst
      && Finish(FoldOnce(Total(h))) == 0
  {
    var total := 20 + 8 + payload;
    if total > 0xFFFF { return None; }
    hide Total, FoldOnce, Finish, Render;
    ghost var t := HeaderFields(total, src, dst);
    HeaderParts(total, src, dst);
    var buf := Fill(20, HeaderFields(total, src, dst));
    ghost var before := buf[..];
    StoredChecksumVerifies(before, 5);
    var c := Compute(buf[..]);
    Write(buf, 10, ToBE16(c));
    hdr := Some(buf[..]);
  }

  lemma {:induction false} HeaderParts(total: nat, src: seq<byte>, dst: seq<byte>)
    requires total <= 0xFFFF && |src| == 4 && |dst| == 4
    ensures var h := Render(20, HeaderFields(total, src, dst));
            && Word(h, 5) == 0 && h[12..16] == src && h[16..20] == dst && h[2..4] == ToBE16(total)
            && h[0..1] == [0x45] && h[1..2] == [0] && h[4..8] == [0, 0, 0, 0] && h[8..10] == [64, 17]
  {
    hide Render;
    var h := Render(20, HeaderFields(total, src, dst));
    assert h[8..10] == h[8..9] + h[9..10];
    var t := HeaderFields(total, src, dst);
    FieldAt(20, t, 0);
    FieldAt(20, t, 1);
    FieldAt(20, t, 2);
    FieldAt(20, t, 3);
    GapAfter(20, t, 0, 2);
    GapAfter(20, t, 1, 8);
    FieldAt(20, t, 4);
    FieldAt(20, t, 5);
    GapAfter(20, t, 3, 12);
  }
}
