// Encrypting regions of a GUTES frame.  A frame is header bytes 0x00..0x17 and the encrypted
// part from 0x18; the regions that get rewritten are the id (0x04..0x0B), the sequence number
// with the checksum (0x0C..0x13) and the payload (0x18 on).
module FrameCrypto {
  import opened Bits
  import opened Bytes
  import opened Words
  import Rc5
  import KeySchedule

  // ---------------------------------------------------------------- block ciphers

  type block8 = s: seq<byte> | |s| == 8 witness Zeros(8)

  // A keyed 8-byte block cipher: (key, block) -> block.
  datatype Cipher = Cipher(enc: (seq<byte>, block8) -> block8, dec: (seq<byte>, block8) -> block8)
  {
    predicate Undone(key: seq<byte>, d: block8) {
      dec(key, enc(key, d)) == d
    }

    ghost predicate Sound() {
      forall key, d :: Undone(key, d)
    }
  }

  // RC5(block_bytes=8, rounds=6)
  function Rc5Cipher8(): Cipher {
    Cipher((key, d) => Rc5.EncryptBlock(KeySchedule.Expand(SourceWords(4), 6, key), d),
           (key, d) => Rc5.DecryptBlock(KeySchedule.Expand(SourceWords(4), 6, key), d))
  }

  lemma {:induction false} Rc5Cipher8Sound()
    ensures Rc5Cipher8().Sound()
  {
    hide Rc5.EncryptBlock, Rc5.DecryptBlock, KeySchedule.Expand;
    SourceWordsSound(4);
    forall key: seq<byte>, d: block8 ensures Rc5Cipher8().Undone(key, d) {
      Rc5.BlockRoundTrip(KeySchedule.Expand(SourceWords(4), 6, key), d);
    }
  }

  // ECB over the whole blocks of a message; a tail shorter than a block stays as it is.
  function EcbEnc(c: Cipher, key: seq<byte>, m: seq<byte>): (r: seq<byte>)
    ensures |r| == |m|
  {
    if |m| < 8 then m else c.enc(key, m[..8]) + EcbEnc(c, key, m[8..])
  }

  function EcbDec(c: Cipher, key: seq<byte>, m: seq<byte>): (r: seq<byte>)
    ensures |r| == |m|
  {
    if |m| < 8 then m else c.dec(key, m[..8]) + EcbDec(c, key, m[8..])
  }

  lemma {:induction false} EcbUndone(c: Cipher, key: seq<byte>, m: seq<byte>)
    requires c.Sound()
    ensures EcbDec(c, key, EcbEnc(c, key, m)) == m
  {
    if |m| >= 8 {
      var e := EcbEnc(c, key, m);
      assert e[..8] == c.enc(key, m[..8]) && e[8..] == EcbEnc(c, key, m[8..]);
      assert c.Undone(key, m[..8]);
      EcbUndone(c, key, m[8..]);
    }
  }

  // The first block of a message only depends on the first block of its plaintext.
  lemma {:induction false} FirstBlock(c: Cipher, key: seq<byte>, m: seq<byte>)
    requires c.Sound() && |m| >= 8
    ensures c.dec(key, EcbEnc(c, key, m)[..8]) == m[..8]
  {
    assert EcbEnc(c, key, m)[..8] == c.enc(key, m[..8]);
    assert c.Undone(key, m[..8]);
  }

  lemma {:induction false} EightsAreWhole(k: nat)
    ensures Rc5.WholeBlocks(8 * k, 8)
  {
    if k > 0 { EightsAreWhole(k - 1); }
  }

  lemma {:induction false} EcbEncOfWhole(c: Cipher, key: seq<byte>, x: Rc5.Key, m: seq<byte>, k: nat)
    requires x.Valid() && x.BlockBytes() == 8 && forall d: block8 :: c.enc(key, d) == Rc5.EncryptBlock(x, d)
    requires 8 * k <= |m| < 8 * k + 8 && Rc5.WholeBlocks(8 * k, 8)
    ensures EcbEnc(c, key, m) == Rc5.Encrypt(x, m[..8 * k]) + m[8 * k..]
    decreases k
  {
    hide Rc5.EncryptBlock;
    if k > 0 {
      EcbEncOfWhole(c, key, x, m[8..], k - 1);
      assert m[..8 * k][..8] == m[..8] && m[..8 * k][8..] == m[8..][..8 * k - 8];
      assert m[8..][8 * k - 8..] == m[8 * k..];
    } else {
      assert m[..0] == [] && [] + m[0..] == m;
    }
  }

  // The ECB of the RC5 class over the whole blocks, followed by the tail.
  lemma {:induction false} EcbEncIsRc5(key: seq<byte>, m: seq<byte>)
    ensures Rc5.WholeBlocks(|m| / 8 * 8, 8)
    ensures EcbEnc(Rc5Cipher8(), key, m)
         == Rc5.Encrypt(KeySchedule.Expand(SourceWords(4), 6, key), m[..|m| / 8 * 8]) + m[|m| / 8 * 8..]
  {
    hide Rc5.Encrypt, Rc5.EncryptBlock, EcbEnc, KeySchedule.Expand;
    var x := KeySchedule.Expand(SourceWords(4), 6, key);
    EightsAreWhole(|m| / 8);
    EcbEncOfWhole(Rc5Cipher8(), key, x, m, |m| / 8);
  }

  // ---------------------------------------------------------------- frame fields

  const HEADER_SIZE: nat := 0x1C
  const CRYPTO_HDR: nat := 0x18
  const GWELL_KEY: seq<byte> :=
    [0x77, 0x77, 0x77, 0x2E, 0x67, 0x77, 0x65, 0x6C, 0x6C, 0x2E, 0x63, 0x63]

  function U16(f: seq<byte>, off: nat): (v: nat)
    requires off + 2 <= |f|
    ensures v < 0x1_0000
  {
    f[off] + 256 * (f[off + 1] as int)
  }

  function U32(f: seq<byte>, off: nat): nat
    requires off + 4 <= |f|
  {
    LE(f[off..off + 4])
  }

  lemma U32Bound(f: seq<byte>, off: nat)
    requires off + 4 <= |f|
    ensures U32(f, off) < 0x1_0000_0000
  {
    LEBound(f[off..off + 4]);
    WordSizes();
  }

  // The weight of each byte of a field.
  lemma {:induction false} U32Bytes(f: seq<byte>, off: nat)
    requires off + 4 <= |f|
    ensures U32(f, off) == f[off] + 0x100 * (f[off + 1] as int) + 0x1_0000 * (f[off + 2] as int)
                           + 0x100_0000 * (f[off + 3] as int)
  {
    var s := f[off..off + 4];
    assert LE(s) == s[0] + 256 * LE(s[1..]);
    assert LE(s[1..]) == s[1] + 256 * LE(s[2..]);
    assert LE(s[2..]) == s[2] + 256 * LE(s[3..]);
    assert LE(s[3..]) == s[3];
  }

  // opt_flags, taken apart.
  datatype Flags = Flags(compressed: bool, nonce: nat, optEncrypt: nat, qos: nat, isAck: bool, isResponse: bool,
                         signatureAppended: bool, ntpAppended: bool, relayFlag: bool)

  function DecodeFlags(opt: nat): Flags {
    Flags(opt % 2 == 1, (opt / 2) % 0x8000, (opt / 0x1_0000) % 4, (opt / 0x4_0000) % 4,
          (opt / 0x10_0000) % 2 == 1, (opt / 0x20_0000) % 2 == 1, (opt / 0x40_0000) % 2 == 1,
          (opt / 0x100_0000) % 2 == 1, (opt / 0x200_0000) % 2 == 1)
  }

  function Bit(b: bool): nat { if b then 1 else 0 }

  // Where the builders put the flags.
  function EncodeFlags(f: Flags): nat
    requires f.nonce < 0x8000 && f.optEncrypt < 4 && f.qos < 4
  {
    Bit(f.compressed) + 0x2 * f.nonce + 0x1_0000 * f.optEncrypt + 0x4_0000 * f.qos + 0x10_0000 * Bit(f.isAck)
    + 0x20_0000 * Bit(f.isResponse) + 0x40_0000 * Bit(f.signatureAppended) + 0x100_0000 * Bit(f.ntpAppended)
    + 0x200_0000 * Bit(f.relayFlag)
  }

  // Every flag is read from the bit it was put at.
  lemma {:induction false} FlagsRoundTrip(f: Flags)
    requires f.nonce < 0x8000 && f.optEncrypt < 4 && f.qos < 4
    ensures DecodeFlags(EncodeFlags(f)) == f
  {
    var high := Bit(f.isAck) + 2 * Bit(f.isResponse) + 4 * Bit(f.signatureAppended) + 16 * Bit(f.ntpAppended)
                + 32 * Bit(f.relayFlag);
    var low, mid := Bit(f.compressed) + 2 * f.nonce, f.optEncrypt + 4 * f.qos;
    assert EncodeFlags(f) == (high * 0x10 + mid) * 0x1_0000 + low;
    hide DecodeFlags, EncodeFlags, Bit;
    FlagsInParts(low, mid, high);
    LowFlags(f.compressed, f.nonce);
    HighFlags(f.isAck, f.isResponse, f.signatureAppended, f.ntpAppended, f.relayFlag);
  }

  lemma {:induction false} FlagsInParts(low: nat, mid: nat, high: nat)
    requires low < 0x1_0000 && mid < 0x10
    ensures DecodeFlags((high * 0x10 + mid) * 0x1_0000 + low)
         == Flags(low % 2 == 1, low / 2, mid % 4, mid / 4, high % 2 == 1, (high / 2) % 2 == 1, (high / 4) % 2 == 1,
                  (high / 16) % 2 == 1, (high / 32) % 2 == 1)
  {
    var upper := high * 0x10 + mid;
    var opt := upper * 0x1_0000 + low;
    MidPart(upper, mid, high);
    Quotients(opt, low, upper, high);
    LowPart(opt, low, upper);
  }

  lemma {:induction false} LowPart(opt: nat, low: nat, upper: nat)
    requires opt == upper * 0x1_0000 + low && low < 0x1_0000
    ensures opt % 2 == low % 2 && (opt / 2) % 0x8000 == low / 2
  {
    assert opt / 2 == upper * 0x8000 + low / 2;
  }

  lemma {:induction false} MidPart(upper: nat, mid: nat, high: nat)
    requires upper == high * 0x10 + mid && mid < 0x10
    ensures upper % 4 == mid % 4 && (upper / 4) % 4 == mid / 4 && upper / 0x10 == high
  {
    assert upper == 4 * (4 * high + mid / 4) + mid % 4;
    assert upper / 4 == 4 * high + mid / 4;
  }

  lemma {:induction false} LowFlags(b: bool, nonce: nat)
    ensures ((Bit(b) + 2 * nonce) % 2 == 1 <==> b) && (Bit(b) + 2 * nonce) / 2 == nonce
  {
  }

  lemma {:induction false} Quotients(opt: nat, low: nat, upper: nat, high: nat)
    requires opt == upper * 0x1_0000 + low && low < 0x1_0000 && high == upper / 0x10
    ensures opt / 0x1_0000 == upper && opt / 0x4_0000 == upper / 4 && opt / 0x10_0000 == high
    ensures opt / 0x20_0000 == high / 2 && opt / 0x40_0000 == high / 4 && opt / 0x100_0000 == high / 16
    ensures opt / 0x200_0000 == high / 32
  {
    assert opt / 0x1_0000 == upper;
    assert opt / 0x10_0000 == high;
  }

  lemma {:induction false} HighFlags(b0: bool, b1: bool, b2: bool, b4: bool, b5: bool)
    ensures var high := Bit(b0) + 2 * Bit(b1) + 4 * Bit(b2) + 16 * Bit(b4) + 32 * Bit(b5);
            && (high % 2 == 1 <==> b0) && ((high / 2) % 2 == 1 <==> b1) && ((high / 4) % 2 == 1 <==> b2)
            && ((high / 16) % 2 == 1 <==> b4) && ((high / 32) % 2 == 1 <==> b5)
  {
  }

  // (opt_flags >> 16) & 3
  function EncryptMode(f: seq<byte>): (mode: nat)
    requires |f| >= CRYPTO_HDR
    ensures mode < 4
  {
    (U32(f, 0x14) / 0x1_0000) % 4
  }

  // The encryption mode is in the low bits of byte 0x16.
  lemma {:induction false} ModeByte(f: seq<byte>)
    requires |f| >= CRYPTO_HDR
    ensures EncryptMode(f) == f[0x16] % 4 == DecodeFlags(U32(f, 0x14)).optEncrypt
  {
    U32Bytes(f, 0x14);
    hide LE, U32;
    var low, high := f[0x14] + 0x100 * (f[0x15] as int), f[0x17] as int;
    SecondHalf(U32(f, 0x14), low, f[0x16] + 0x100 * high);
    assert (f[0x16] + 0x100 * high) % 4 == f[0x16] % 4;
  }

  lemma {:induction false} SecondHalf(v: nat, low: nat, high: nat)
    requires v == low + 0x1_0000 * high && low < 0x1_0000
    ensures v / 0x1_0000 == high
  {
  }

  // Bytes 0..3 and 0x14..0x16 of the header and a zero.
  function PerFrameKey(f: seq<byte>): seq<byte>
    requires |f| >= CRYPTO_HDR
  {
    f[..4] + f[0x14..0x17] + [0]
  }

  // The eighth, zero byte makes no difference: seven header bytes are the key.
  lemma {:induction false} SevenByteKey(f: seq<byte>, rounds: nat)
    requires |f| >= CRYPTO_HDR
    ensures KeySchedule.Expand(SourceWords(4), rounds, PerFrameKey(f))
         == KeySchedule.Expand(SourceWords(4), rounds, f[..4] + f[0x14..0x17])
  {
    hide KeySchedule.Expand, SourceWords;
    var seven := f[..4] + f[0x14..0x17];
    assert PerFrameKey(f) == seven + Zeros(1);
    WordSizeKept();
    KeySchedule.PaddingKeepsSchedule(SourceWords(4), rounds, seven, 1);
  }

  lemma {:induction false} WordSizeKept()
    ensures SourceWords(4).u == 4
  {
    hide Pow2;
  }

  // ---------------------------------------------------------------- regions

  function EncryptPayload(c: Cipher, key: seq<byte>, f: seq<byte>): (r: seq<byte>)
    requires |f| >= CRYPTO_HDR
    ensures |r| == |f|
  {
    f[..0x18] + EcbEnc(c, key, f[0x18..])
  }

  function DecryptPayload(c: Cipher, key: seq<byte>, f: seq<byte>): (r: seq<byte>)
    requires |f| >= CRYPTO_HDR
    ensures |r| == |f|
  {
    f[..0x18] + EcbDec(c, key, f[0x18..])
  }

  function EncryptSqChk(c: Cipher, key: seq<byte>, f: seq<byte>): (r: seq<byte>)
    requires |f| >= CRYPTO_HDR
    ensures |r| == |f|
  {
    f[..0x0C] + c.enc(key, f[0x0C..0x14]) + f[0x14..]
  }

  function DecryptSqChk(c: Cipher, key: seq<byte>, f: seq<byte>): (r: seq<byte>)
    requires |f| >= CRYPTO_HDR
    ensures |r| == |f|
  {
    f[..0x0C] + c.dec(key, f[0x0C..0x14]) + f[0x14..]
  }

  // The id goes through RC5 under the static key and is then XORed with bytes 0x0C..0x13.
  function MaskId(c: Cipher, f: seq<byte>): (r: seq<byte>)
    requires |f| >= CRYPTO_HDR
    ensures |r| == |f|
  {
    f[..4] + XorBytes(c.enc(GWELL_KEY, f[4..0x0C]), f[0x0C..0x14]) + f[0x0C..]
  }

  function UnmaskId(c: Cipher, f: seq<byte>): (r: seq<byte>)
    requires |f| >= CRYPTO_HDR
    ensures |r| == |f|
  {
    f[..4] + c.dec(GWELL_KEY, XorBytes(f[4..0x0C], f[0x0C..0x14])) + f[0x0C..]
  }

  // The sealing order of build_calling_ack: payload, then sqnum + chkval, then the id.
  function Seal(c: Cipher, key: seq<byte>, f: seq<byte>): (r: seq<byte>)
    requires |f| >= CRYPTO_HDR
    ensures |r| == |f|
  {
    MaskId(c, EncryptSqChk(c, key, EncryptPayload(c, key, f)))
  }

  // The three steps undone in reverse order.
  function Open(c: Cipher, key: seq<byte>, f: seq<byte>): (r: seq<byte>)
    requires |f| >= CRYPTO_HDR
    ensures |r| == |f|
  {
    DecryptPayload(c, key, DecryptSqChk(c, key, UnmaskId(c, f)))
  }

  lemma {:induction false} PayloadUndone(c: Cipher, key: seq<byte>, f: seq<byte>)
    requires c.Sound() && |f| >= CRYPTO_HDR
    ensures DecryptPayload(c, key, EncryptPayload(c, key, f)) == f
  {
    EcbUndone(c, key, f[0x18..]);
    assert EncryptPayload(c, key, f)[0x18..] == EcbEnc(c, key, f[0x18..]);
  }

  lemma {:induction false} SqChkUndone(c: Cipher, key: seq<byte>, f: seq<byte>)
    requires c.Sound() && |f| >= CRYPTO_HDR
    ensures DecryptSqChk(c, key, EncryptSqChk(c, key, f)) == f
  {
    assert c.Undone(key, f[0x0C..0x14]);
    assert EncryptSqChk(c, key, f)[0x0C..0x14] == c.enc(key, f[0x0C..0x14]);
  }

  lemma {:induction false} IdUndone(c: Cipher, f: seq<byte>)
    requires c.Sound() && |f| >= CRYPTO_HDR
    ensures UnmaskId(c, MaskId(c, f)) == f
  {
    var g := MaskId(c, f);
    assert c.Undone(GWELL_KEY, f[4..0x0C]);
    XorBytesCancel(c.enc(GWELL_KEY, f[4..0x0C]), f[0x0C..0x14]);
    assert g[4..0x0C] == XorBytes(c.enc(GWELL_KEY, f[4..0x0C]), f[0x0C..0x14]);
    assert g[0x0C..0x14] == f[0x0C..0x14];
  }

  lemma {:induction false} OpenUndoesSeal(c: Cipher, key: seq<byte>, f: seq<byte>)
    requires c.Sound() && |f| >= CRYPTO_HDR
    ensures Open(c, key, Seal(c, key, f)) == f
  {
    hide MaskId, UnmaskId, EncryptSqChk, DecryptSqChk, EncryptPayload, DecryptPayload;
    var f1 := EncryptPayload(c, key, f);
    IdUndone(c, EncryptSqChk(c, key, f1));
    SqChkUndone(c, key, f1);
    PayloadUndone(c, key, f);
  }

  // The header bytes that make the per-frame key, and the flags, survive the encryption.
  lemma {:induction false} KeyBytesSurvive(c: Cipher, key: seq<byte>, f: seq<byte>)
    requires |f| >= CRYPTO_HDR
    ensures PerFrameKey(EncryptSqChk(c, key, EncryptPayload(c, key, f))) == PerFrameKey(f)
    ensures PerFrameKey(Seal(c, key, f)) == PerFrameKey(f)
    ensures Seal(c, key, f)[0x14..0x18] == f[0x14..0x18]
  {
    var g := EncryptSqChk(c, key, EncryptPayload(c, key, f));
    assert g[..4] == f[..4] && g[0x14..0x18] == f[0x14..0x18];
    var h := Seal(c, key, f);
    assert h[..4] == f[..4] && h[0x14..0x18] == f[0x14..0x18];
    assert g[0x14..0x17] == g[0x14..0x18][..3] && h[0x14..0x17] == h[0x14..0x18][..3];
    assert f[0x14..0x17] == f[0x14..0x18][..3];
  }

  // ---------------------------------------------------------------- the id field

  // struct.pack('<q', v) and struct.unpack('<q', s): signed 64-bit values.
  predicate IsInt64(v: int) { -0x8000_0000_0000_0000 <= v < 0x8000_0000_0000_0000 }

  function PackQ(v: int): block8
    requires IsInt64(v)
  {
    ToLE(if v < 0 then v + 0x1_0000_0000_0000_0000 else v, 8)
  }

  function UnpackQ(s: block8): int {
    if LE(s) >= 0x8000_0000_0000_0000 then LE(s) - 0x1_0000_0000_0000_0000 else LE(s)
  }

  lemma {:induction false} UnpackPackQ(v: int)
    requires IsInt64(v)
    ensures UnpackQ(PackQ(v)) == v
  {
    WordSizes();
    UnpackPack(if v < 0 then v + 0x1_0000_0000_0000_0000 else v, 8);
  }

  // id_encrypt: XOR with sqnum and chkval first, then RC5 under the static key.
  function IdEncrypt(c: Cipher, id: block8, sqchk: block8): block8 {
    c.enc(GWELL_KEY, XorBytes(id, sqchk))
  }

  function IdDecrypt(c: Cipher, e: block8, sqchk: block8): block8 {
    XorBytes(c.dec(GWELL_KEY, e), sqchk)
  }

  lemma {:induction false} IdRoundTrip(c: Cipher, id: block8, sqchk: block8)
    requires c.Sound()
    ensures IdDecrypt(c, IdEncrypt(c, id, sqchk), sqchk) == id
  {
    assert c.Undone(GWELL_KEY, XorBytes(id, sqchk));
    XorBytesCancel(id, sqchk);
  }

  // id_encrypt masks before it encrypts: only the XOR of id and numbers goes into RC5 ...
  lemma {:induction false} MaskedBefore(c: Cipher, id: block8, sqchk: block8)
    ensures IdEncrypt(c, id, sqchk) == IdEncrypt(c, XorBytes(id, sqchk), Zeros(8))
    ensures IdEncrypt(c, id, Zeros(8)) == c.enc(GWELL_KEY, id)
  {
    XorBytesZero(XorBytes(id, sqchk));
    XorBytesZero(id);
  }

  // ... and the ACK's id is masked after it: with the numbers XORed off again, it is the encrypted id.
  lemma {:induction false} MaskedAfter(c: Cipher, f: seq<byte>)
    requires |f| >= CRYPTO_HDR
    ensures XorBytes(MaskId(c, f)[4..0x0C], f[0x0C..0x14]) == c.enc(GWELL_KEY, f[4..0x0C])
  {
    XorBytesCancel(c.enc(GWELL_KEY, f[4..0x0C]), f[0x0C..0x14]);
    assert MaskId(c, f)[4..0x0C] == XorBytes(c.enc(GWELL_KEY, f[4..0x0C]), f[0x0C..0x14]);
  }

  // The static key is the ASCII text of the SDK.
  lemma {:induction false} StaticKey()
    ensures |GWELL_KEY| == |"www.gwell.cc"|
    ensures forall i :: 0 <= i < |GWELL_KEY| ==> GWELL_KEY[i] == "www.gwell.cc"[i] as int
  {
  }

  // Two's complement, low byte first.
  lemma {:induction false} PackedIds()
    ensures PackQ(1) == [1, 0, 0, 0, 0, 0, 0, 0]
    ensures PackQ(-2) == [0xFE, 0xFF, 0xFF, 0xFF, 0xFF, 0xFF, 0xFF, 0xFF]
  {
    OneAsBytes();
    MinusTwoAsBytes();
    hide ToLE;
  }

  lemma {:induction false} OneAsBytes()
    ensures ToLE(1, 8) == [1, 0, 0, 0, 0, 0, 0, 0]
  {
  }

  lemma {:induction false} MinusTwoAsBytes()
    ensures ToLE(0xFFFF_FFFF_FFFF_FFFE, 8) == [0xFE, 0xFF, 0xFF, 0xFF, 0xFF, 0xFF, 0xFF, 0xFF]
  {
    assert ToLE(0xFFFF_FFFF, 4) == [0xFF, 0xFF, 0xFF, 0xFF];
    assert ToLE(0xFFFF_FFFF_FFFF_FFFE, 8) == [0xFE, 0xFF, 0xFF, 0xFF] + ToLE(0xFFFF_FFFF, 4);
  }

  // decode_term_id: 0 for a frame without a full header.
  function DecodeTermId(c: Cipher, f: seq<byte>): int {
    if |f| < HEADER_SIZE then 0 else UnpackQ(IdDecrypt(c, f[4..0x0C], f[0x0C..0x14]))
  }
}
