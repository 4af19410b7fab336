// Frames with a masked server id (KEEPALIVE and its ACK), the parser's view of a header, and
// the plain success responses to SUBSCRIBE and SESSION_CTL.
module RelayFrames {
  import opened Bytes
  import opened Bits
  import opened FrameCrypto
  import opened Layout
  import opened SessionFrames
  import Chkval

  // ---------------------------------------------------------------- parse_frame

  // The header fields that parse_frame decodes.
  datatype Header = Header(protocol: byte, frameType: byte, frmLen: nat, termId: int, sqnum: nat,
                           chkval: nat, flags: Flags, flags2: nat, ackResult: nat)

  // None for a frame shorter than a header.  The id is decrypted with sqnum and chkval packed
  // again from their integer values.
  function ParseHeader(c: Cipher, f: seq<byte>): Option<Header>
  {
    if |f| < HEADER_SIZE then None
    else
      var sq, chk := U32(f, 0x0C), U32(f, 0x10);
      Some(Header(f[0], f[1], U16(f, 2),
                  UnpackQ(IdDecrypt(c, f[4..0x0C], ToLE(sq, 4) + ToLE(chk, 4))),
                  sq, chk, DecodeFlags(U32(f, 0x14)), U16(f, 0x18), U16(f, 0x1A)))
  }

  // The parser and the relay decode the same term id; a frame without a full header has none.
  lemma {:induction false} ParserDecodesTermId(c: Cipher, f: seq<byte>)
    ensures |f| >= 0x1C <==> ParseHeader(c, f).Some?
    ensures |f| >= 0x1C ==> ParseHeader(c, f).value.termId == DecodeTermId(c, f)
    ensures |f| < 0x1C ==> DecodeTermId(c, f) == 0
  {
    hide LE, ToLE;
    if |f| >= HEADER_SIZE {
      PackUnpack(f[0x0C..0x10]);
      PackUnpack(f[0x10..0x14]);
      assert f[0x0C..0x14] == f[0x0C..0x10] + f[0x10..0x14];
    }
  }

  // ---------------------------------------------------------------- KEEPALIVE

  // A header-only frame of the given protocol and flags whose id is masked with its own sqnum
  // and chkval.
  function MaskedFields(c: Cipher, proto: byte, termId: int, sqnum: nat, chkval: nat, flags: nat): (t: seq<Field>)
    requires IsInt64(termId)
    ensures InOrder(HEADER_SIZE, t)
  {
    var t := [At(0, [proto, 0x17]), At(2, ToLE(HEADER_SIZE, 2)),
              At(4, IdEncrypt(c, PackQ(termId), ToLE(sqnum, 4) + ToLE(chkval, 4))),
              At(0x0C, ToLE(sqnum, 4)), At(0x10, ToLE(chkval, 4)), At(0x14, ToLE(flags, 4))];
    AscendingInOrder(HEADER_SIZE, t);
    t
  }

  function MaskedFrame(c: Cipher, proto: byte, termId: int, sqnum: nat, chkval: nat, flags: nat): (f: seq<byte>)
    requires IsInt64(termId)
    ensures |f| == HEADER_SIZE
  {
    Render(HEADER_SIZE, MaskedFields(c, proto, termId, sqnum, chkval, flags))
  }

  // The parser and the relay recover every field that went in, the signed id among them.
  lemma {:induction false} MaskedFrameParses(c: Cipher, proto: byte, termId: int, sqnum: nat, chkval: nat, flags: nat)
    requires c.Sound() && IsInt64(termId)
    requires sqnum < 0x1_0000_0000 && chkval < 0x1_0000_0000 && flags < 0x1_0000_0000
    ensures var f := MaskedFrame(c, proto, termId, sqnum, chkval, flags);
            && DecodeTermId(c, f) == termId
            && f[0..4] == [proto, 0x17] + ToLE(HEADER_SIZE, 2)
            && U32(f, 0x0C) == sqnum && U32(f, 0x10) == chkval && U32(f, 0x14) == flags
            && f[0x18..HEADER_SIZE] == Zeros(4)
  {
    hide LE, ToLE, Render, PackQ, UnpackQ, IdEncrypt, IdDecrypt;
    var t := MaskedFields(c, proto, termId, sqnum, chkval, flags);
    var f := Render(HEADER_SIZE, t);
    FieldAt(HEADER_SIZE, t, 0);
    FieldAt(HEADER_SIZE, t, 1);
    FieldAt(HEADER_SIZE, t, 2);
    FieldAt(HEADER_SIZE, t, 3);
    FieldAt(HEADER_SIZE, t, 4);
    FieldAt(HEADER_SIZE, t, 5);
    GapAfter(HEADER_SIZE, t, 5, HEADER_SIZE);
    assert f[0x0C..0x14] == f[0x0C..0x10] + f[0x10..0x14];
    assert f[0..4] == f[0..2] + f[2..4];
    WordSizes();
    UnpackPack(sqnum, 4);
    UnpackPack(chkval, 4);
    UnpackPack(flags, 4);
    IdRoundTrip(c, PackQ(termId), ToLE(sqnum, 4) + ToLE(chkval, 4));
    UnpackPackQ(termId);
  }

  // (nonce << 1) | (1 << 18) and (nonce << 1) | (1 << 20)
  function KeepaliveFlags(nonce: nat): nat { nonce * 2 + 0x4_0000 }

  function KeepaliveAckFlags(nonce: nat): nat { nonce * 2 + 0x10_0000 }

  lemma {:induction false} FlagsDecode(nonce: nat)
    requires nonce < 0x8000
    ensures DecodeFlags(KeepaliveFlags(nonce)) == Flags(false, nonce, 0, 1, false, false, false, false, false)
    ensures DecodeFlags(KeepaliveAckFlags(nonce)) == Flags(false, nonce, 0, 0, true, false, false, false, false)
  {
  }

  // build_keepalive; md5 is make_server_chkval.
  method BuildKeepalive(c: Cipher, relay: Counters, termId: int, md5: nat -> nat, nonce: nat)
    returns (f: seq<byte>)
    requires IsInt64(termId)
    modifies relay`serverSqnum
    ensures var sq := old(relay.serverSqnum);
            f == MaskedFrame(c, 0x7F, termId, sq, md5(sq), KeepaliveFlags(nonce))
    ensures relay.serverSqnum == (old(relay.serverSqnum) + 1) % 0x1_0000_0000
  {
    var sqnum := relay.NextSqnum();
    var buf := Fill(HEADER_SIZE, MaskedFields(c, 0x7F, termId, sqnum, md5(sqnum), KeepaliveFlags(nonce)));
    f := buf[..];
  }

  // build_keepalive_ack: echoes the request's sqnum field with a zero chkval.
  method BuildKeepaliveAck(c: Cipher, termId: int, request: seq<byte>, nonce: nat)
    returns (r: Option<seq<byte>>)
    requires IsInt64(termId)
    ensures r == if |request| < HEADER_SIZE then None
                 else Some(MaskedFrame(c, request[0], termId, U32(request, 0x0C), 0, KeepaliveAckFlags(nonce)))
  {
    if |request| < HEADER_SIZE { return None; }
    var buf := Fill(HEADER_SIZE, MaskedFields(c, request[0], termId, U32(request, 0x0C), 0,
                                              KeepaliveAckFlags(nonce)));
    r := Some(buf[..]);
  }

  lemma {:induction false} KeepaliveParses(c: Cipher, termId: int, sqnum: nat, chkval: nat, nonce: nat)
    requires c.Sound() && IsInt64(termId) && nonce < 0x8000
    requires sqnum < 0x1_0000_0000 && chkval < 0x1_0000_0000
    ensures var f := MaskedFrame(c, 0x7F, termId, sqnum, chkval, KeepaliveFlags(nonce));
            ParseHeader(c, f) == Some(Header(0x7F, 0x17, 0x1C, termId, sqnum, chkval,
                                             Flags(false, nonce, 0, 1, false, false, false, false, false), 0, 0))
  {
    hide LE, MaskedFrame, DecodeTermId, IdDecrypt, UnpackQ, DecodeFlags;
    FlagsDecode(nonce);
    var f := MaskedFrame(c, 0x7F, termId, sqnum, chkval, KeepaliveFlags(nonce));
    MaskedFrameParses(c, 0x7F, termId, sqnum, chkval, KeepaliveFlags(nonce));
    ParserDecodesTermId(c, f);
    assert ToLE(HEADER_SIZE, 2) == [0x1C, 0];
    assert f[0] == f[0..4][0] && f[1] == f[0..4][1] && f[2] == f[0..4][2] && f[3] == f[0..4][3];
    var z := f[0x18..HEADER_SIZE];
    assert f[0x18] == z[0] && f[0x19] == z[1] && f[0x1A] == z[2] && f[0x1B] == z[3];
  }

  lemma {:induction false} KeepaliveAckParses(c: Cipher, termId: int, request: seq<byte>, nonce: nat)
    requires c.Sound() && IsInt64(termId) && nonce < 0x8000 && |request| >= HEADER_SIZE
    ensures var f := MaskedFrame(c, request[0], termId, U32(request, 0x0C), 0, KeepaliveAckFlags(nonce));
            ParseHeader(c, f) == Some(Header(request[0], 0x17, 0x1C, termId, U32(request, 0x0C), 0,
                                             Flags(false, nonce, 0, 0, true, false, false, false, false), 0, 0))
  {
    hide LE, MaskedFrame, DecodeTermId, IdDecrypt, UnpackQ, DecodeFlags;
    FlagsDecode(nonce);
    var sqnum := U32(request, 0x0C);
    U32Bound(request, 0x0C);
    var f := MaskedFrame(c, request[0], termId, sqnum, 0, KeepaliveAckFlags(nonce));
    MaskedFrameParses(c, request[0], termId, sqnum, 0, KeepaliveAckFlags(nonce));
    ParserDecodesTermId(c, f);
    assert ToLE(HEADER_SIZE, 2) == [0x1C, 0];
    assert f[0] == f[0..4][0] && f[1] == f[0..4][1] && f[2] == f[0..4][2] && f[3] == f[0..4][3];
    var z := f[0x18..HEADER_SIZE];
    assert f[0x18] == z[0] && f[0x19] == z[1] && f[0x1A] == z[2] && f[0x1B] == z[3];
  }

  // The parser reads an MTP_RES_RESP as what was built.
  lemma {:induction false} MtpResParses(c: Cipher, id: block8, sqnum: nat, linkId: nat, localIp: seq<byte>,
                                        doorbellIp: seq<byte>, port: nat)
    requires |localIp| == 4 && |doorbellIp| == 4 && port < 0x1_0000 && sqnum < 0x1_0000_0000
    ensures var r := MtpRes(id, sqnum, linkId, localIp, doorbellIp, port);
            && ParseHeader(c, r).Some?
            && var h := ParseHeader(c, r).value;
               && h.protocol == 0x7E && h.frameType == 0xA3 && h.frmLen == |r| == 0x7A && h.sqnum == sqnum
               && h.chkval == Chkval.Value(r) && h.flags2 == 3 && h.ackResult == 0
               && h.flags == Flags(false, 0, 0, 0, false, false, false, false, true)
  {
    hide LE, MtpRes, DecodeFlags, IdDecrypt, UnpackQ, Chkval.Value;
    MtpResContents(id, sqnum, linkId, localIp, doorbellIp, port);
    MtpResChkval(id, sqnum, linkId, localIp, doorbellIp, port);
    var r := MtpRes(id, sqnum, linkId, localIp, doorbellIp, port);
    assert r[0] == r[0..2][0] && r[1] == r[0..2][1] && r[2] == r[2..4][0] && r[3] == r[2..4][1];
    var z := r[0x18..0x1C];
    assert r[0x18] == z[0] && r[0x19] == z[1] && r[0x1A] == z[2] && r[0x1B] == z[3];
  }

  lemma {:induction false} MtpResChkval(id: block8, sqnum: nat, linkId: nat, localIp: seq<byte>,
                                        doorbellIp: seq<byte>, port: nat)
    requires |localIp| == 4 && |doorbellIp| == 4 && port < 0x1_0000
    ensures var r := MtpRes(id, sqnum, linkId, localIp, doorbellIp, port);
            U32(r, 0x10) == Chkval.Value(r)
  {
    hide LE, Chkval.Value, Render, WithChkval, MtpResFields;
    ChkvalStored(Render(0x7A, MtpResFields(id, sqnum, linkId, localIp, doorbellIp, port)));
  }

  // ---------------------------------------------------------------- success responses

  // SUBSCRIBE_RESP (0xA1) and SESSION_CTL_RESP (0xB1): 54 bytes, all zero after the header.
  function SuccessFields(frameType: byte, id: block8, sqnum: nat, predicted: nat): (t: seq<Field>)
    ensures InOrder(0x36, t)
  {
    var t := [At(0, [0x7E, frameType]), At(2, ToLE(0x36, 2)), At(4, id), At(0x0C, ToLE(sqnum, 4)),
              At(0x10, ToLE(predicted % 0x1_0000_0000, 4)), At(0x14, ToLE(0x220_0000, 4))];
    AscendingInOrder(0x36, t);
    t
  }

  method BuildSuccess(relay: Counters, frameType: byte, id: block8, predicted: nat) returns (f: seq<byte>)
    modifies relay`serverSqnum
    ensures f == Render(0x36, SuccessFields(frameType, id, old(relay.serverSqnum), predicted))
    ensures relay.serverSqnum == (old(relay.serverSqnum) + 1) % 0x1_0000_0000
  {
    var sqnum := relay.NextSqnum();
    var buf := Fill(0x36, SuccessFields(frameType, id, sqnum, predicted));
    f := buf[..];
  }

  // The answer byte by byte: session protocol, 54 bytes, response and relay flags, and matching the
  // request whose sequence number was predicted; it reads as success, since ack_result (0x1A),
  // error_code (0x34) and all else are 0.
  lemma {:induction false} SuccessAnswers(frameType: byte, id: block8, sqnum: nat, predicted: nat)
    ensures var f := Render(0x36, SuccessFields(frameType, id, sqnum, predicted));
            && f[0..2] == [0x7E, frameType] && f[2..4] == [54, 0] && f[4..0x0C] == id
            && (sqnum < 0x1_0000_0000 ==> U32(f, 0x0C) == sqnum) && U32(f, 0x10) == predicted % 0x1_0000_0000
            && DecodeFlags(U32(f, 0x14)) == Flags(false, 0, 0, 0, false, true, false, false, true)
            && f[0x18..0x36] == Zeros(0x1E)
  {
    hide LE, ToLE, Render, DecodeFlags, EncodeFlags;
    var t := SuccessFields(frameType, id, sqnum, predicted);
    FieldAt(0x36, t, 0);
    FieldAt(0x36, t, 1);
    FieldAt(0x36, t, 2);
    FieldAt(0x36, t, 3);
    FieldAt(0x36, t, 4);
    FieldAt(0x36, t, 5);
    GapAfter(0x36, t, 5, 0x36);
    SuccessLength();
    WordSizes();
    if sqnum < 0x1_0000_0000 { UnpackPack(sqnum, 4); }
    UnpackPack(predicted % 0x1_0000_0000, 4);
    UnpackPack(0x220_0000, 4);
    SuccessFlags();
  }

  lemma {:induction false} SuccessLength()
    ensures ToLE(0x36, 2) == [54, 0]
  {
  }

  lemma {:induction false} SuccessFlags()
    ensures DecodeFlags(0x220_0000) == Flags(false, 0, 0, 0, false, true, false, false, true)
  {
    hide DecodeFlags;
    FlagsRoundTrip(Flags(false, 0, 0, 0, false, true, false, false, true));
  }
}
