// Byte strings: little-endian packing (struct.pack / unpack_from), byte-wise XOR and
// writes into a fixed-size buffer.
module Bytes {
  import opened Bits

  type byte = x: int | 0 <= x < 256

  datatype Option<+T> = None | Some(value: T)
  {
    function GetOr(default: T): T {
      if Some? then value else default
    }
  }

  lemma {:induction false} Pow2Byte(n: nat)
    ensures Pow2(8 * (n + 1)) == 256 * Pow2(8 * n)
  {
    WordSizes();
    Pow2Add(8, 8 * n);
  }

  // ---------------------------------------------------------------- little-endian packing

  // The value of a little-endian field.
  function LE(s: seq<byte>): nat
  {
    if |s| == 0 then 0 else s[0] + 256 * LE(s[1..])
  }

  // The n bytes of a little-endian field.
  function ToLE(v: nat, n: nat): (s: seq<byte>)
    ensures |s| == n
  {
    if n == 0 then [] else [v % 256] + ToLE(v / 256, n - 1)
  }

  lemma {:induction false} LEBound(s: seq<byte>)
    ensures LE(s) < Pow2(8 * |s|)
  {
    if |s| > 0 {
      LEBound(s[1..]);
      Pow2Byte(|s| - 1);
    }
  }

  lemma {:induction false} UnpackPack(v: nat, n: nat)
    requires v < Pow2(8 * n)
    ensures LE(ToLE(v, n)) == v
  {
    if n > 0 {
      Pow2Byte(n - 1);
      UnpackPack(v / 256, n - 1);
      assert ToLE(v, n)[1..] == ToLE(v / 256, n - 1);
    }
  }

  lemma {:induction false} PackUnpack(s: seq<byte>)
    ensures ToLE(LE(s), |s|) == s
  {
    if |s| > 0 {
      PackUnpack(s[1..]);
      assert s == [s[0]] + s[1..];
    }
  }

  function Zeros(n: nat): (s: seq<byte>)
    ensures |s| == n
    ensures forall i :: 0 <= i < n ==> s[i] == 0
  {
    seq(n, _ => 0)
  }

  lemma {:induction false} LEOfPadded(s: seq<byte>, n: nat)
    ensures LE(s + Zeros(n)) == LE(s)
    decreases |s| + n
  {
    if |s| > 0 {
      LEOfPadded(s[1..], n);
      assert (s + Zeros(n))[1..] == s[1..] + Zeros(n);
    } else if n > 0 {
      LEOfPadded(s, n - 1);
      assert (s + Zeros(n))[1..] == s + Zeros(n - 1);
    }
  }

  // struct.pack_into('>H', ...): network byte order.
  function ToBE16(v: nat): (s: seq<byte>)
    requires v < 0x1_0000
    ensures |s| == 2
  {
    [v / 256, v % 256]
  }

  // ---------------------------------------------------------------- byte-wise XOR

  function XorByte(a: byte, b: byte): byte
  {
    WordSizes();
    XorBound(a, b, 8);
    Xor(a, b)
  }

  function XorBytes(a: seq<byte>, b: seq<byte>): (r: seq<byte>)
    requires |a| == |b|
    ensures |r| == |a|
  {
    seq(|a|, i requires 0 <= i < |a| => XorByte(a[i], b[i]))
  }

  lemma {:induction false} XorBytesCancel(a: seq<byte>, b: seq<byte>)
    requires |a| == |b|
    ensures XorBytes(XorBytes(a, b), b) == a
  {
    forall i | 0 <= i < |a| ensures XorBytes(XorBytes(a, b), b)[i] == a[i] {
      XorCancel(a[i], b[i]);
    }
  }

  lemma {:induction false} XorBytesZero(a: seq<byte>)
    ensures XorBytes(a, Zeros(|a|)) == a
  {
    forall i | 0 <= i < |a| ensures XorBytes(a, Zeros(|a|))[i] == a[i] {
      XorZero(a[i]);
    }
  }

  // ---------------------------------------------------------------- buffers

  // f with the bytes bs written at offset off.
  function Put(f: seq<byte>, off: nat, bs: seq<byte>): (r: seq<byte>)
    requires off + |bs| <= |f|
    ensures |r| == |f|
    ensures r[off..off + |bs|] == bs
    ensures forall a, b {:trigger r[a..b]} ::
              0 <= a <= b <= |f| && (b <= off || off + |bs| <= a) ==> r[a..b] == f[a..b]
  {
    f[..off] + bs + f[off + |bs|..]
  }

  // buf[off:off + n] = bs, and struct.pack_into at off.
  method Write(buf: array<byte>, off: nat, bs: seq<byte>)
    requires off + |bs| <= buf.Length
    modifies buf
    ensures buf[..] == Put(old(buf[..]), off, bs)
  {
    for i := 0 to |bs|
      invariant buf[..] == old(buf[..off]) + bs[..i] + old(buf[off + i..])
    {
      buf[off + i] := bs[i];
    }
  }
}
