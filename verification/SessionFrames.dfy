// Frames of a CALLING: what the relay reads out of a request under each encryption mode
// (session_crypto.py) and the CALLING_ACK and MTP_RES_RESP it builds in place (frame_builder.py).
module SessionFrames {
  import opened Bytes
  import opened Bits
  import opened FrameCrypto
  import opened Layout
  import Chkval

  datatype Addr = Addr(ip: string, port: nat)

  // A dictionary keyed by address, in insertion order.
  type AddrMap<V> = seq<(Addr, V)>

  // dict.get(addr)
  function Get<V>(m: AddrMap<V>, addr: Addr): Option<V> {
    if m == [] then None else if m[0].0 == addr then Some(m[0].1) else Get(m[1..], addr)
  }

  // The first entry with the same IP.
  function FirstByIp<V>(m: AddrMap<V>, ip: string): Option<V> {
    if m == [] then None else if m[0].0.ip == ip then Some(m[0].1) else FirstByIp(m[1..], ip)
  }

  // Exact address first, then any port of the same IP.  An empty byte string is falsy, so
  // [] stands for "not found".
  function FindBytes(m: AddrMap<seq<byte>>, addr: Addr): seq<byte> {
    var exact := Get(m, addr).GetOr([]);
    if exact != [] then exact else FirstByIp(m, addr.ip).GetOr([])
  }

  // What FirstByIp finds: the first entry with the IP, whatever its port.
  lemma {:induction false} FirstByIpIs<V>(m: AddrMap<V>, ip: string)
    ensures FirstByIp(m, ip).None? <==> forall i :: 0 <= i < |m| ==> m[i].0.ip != ip
    ensures forall i :: 0 <= i < |m| && m[i].0.ip == ip && (forall j :: 0 <= j < i ==> m[j].0.ip != ip) ==>
              FirstByIp(m, ip) == Some(m[i].1)
  {
    if m != [] {
      FirstByIpIs(m[1..], ip);
      assert forall i :: 0 < i < |m| ==> m[i] == m[1..][i - 1];
      forall i | 0 <= i < |m| && m[i].0.ip == ip && (forall j :: 0 <= j < i ==> m[j].0.ip != ip)
        ensures FirstByIp(m, ip) == Some(m[i].1)
      {
        if i > 0 { assert forall j :: 0 <= j < i - 1 ==> m[1..][j] == m[j + 1]; }
      }
    }
  }

  // Without a key of its own an address gets the first key of its IP, if there is one.
  lemma {:induction false} FallsBackToIp(m: AddrMap<seq<byte>>, addr: Addr, i: nat)
    requires Get(m, addr).GetOr([]) == []
    ensures (forall j :: 0 <= j < |m| ==> m[j].0.ip != addr.ip) ==> FindBytes(m, addr) == []
    ensures i < |m| && m[i].0.ip == addr.ip && (forall j :: 0 <= j < i ==> m[j].0.ip != addr.ip) ==>
              FindBytes(m, addr) == m[i].1
  {
    hide FirstByIp;
    FirstByIpIs(m, addr.ip);
  }

  // ---------------------------------------------------------------- reading requests

  // extract_request_sequence_number with an address; key is what the lookup found.
  function RequestSqnum(c: Cipher, req: seq<byte>, key: seq<byte>): nat
  {
    if |req| < HEADER_SIZE then 0
    else if EncryptMode(req) == 0 then U32(req, 0x0C)
    else if EncryptMode(req) == 2 && key != [] then LE(c.dec(key, req[0x0C..0x14])[..4])
    else LE(c.dec(PerFrameKey(req), req[0x0C..0x14])[..4])
  }

  // extract_calling_link_id.  struct.unpack_from needs the flags to be there.
  function LinkId(c: Cipher, req: seq<byte>, key: seq<byte>): Option<nat>
    requires |req| >= CRYPTO_HDR
  {
    if |req| < 0x20 then None
    else if EncryptMode(req) == 2 then
      if key != [] then Some(LE(c.dec(key, req[0x18..0x20])[4..8])) else None
    else if EncryptMode(req) == 1 then Some(LE(c.dec(PerFrameKey(req), req[0x18..0x20])[4..8]))
    else Some(U32(req, 0x1C))
  }

  // How a client sends plaintext p: as it is, or with the part from 0x18 (and, as the protocol
  // does, sqnum and chkval) encrypted under the per-frame key or the session key.
  function Sent(c: Cipher, p: seq<byte>, sessionKey: seq<byte>): (f: seq<byte>)
    requires |p| >= CRYPTO_HDR
    ensures |f| == |p|
  {
    var key := if EncryptMode(p) == 1 then PerFrameKey(p) else sessionKey;
    if EncryptMode(p) == 1 || EncryptMode(p) == 2
    then EncryptSqChk(c, key, EncryptPayload(c, key, p)) else p
  }

  lemma {:induction false} SentKeepsHeader(c: Cipher, p: seq<byte>, sessionKey: seq<byte>)
    requires |p| >= CRYPTO_HDR
    ensures EncryptMode(Sent(c, p, sessionKey)) == EncryptMode(p)
    ensures PerFrameKey(Sent(c, p, sessionKey)) == PerFrameKey(p)
    ensures Sent(c, p, sessionKey)[0x14..0x18] == p[0x14..0x18]
  {
    hide LE;
    var f := Sent(c, p, sessionKey);
    assert f[..4] == p[..4] && f[0x14..0x18] == p[0x14..0x18];
    assert f[0x14..0x17] == f[0x14..0x18][..3] && p[0x14..0x17] == p[0x14..0x18][..3];
  }

  // The link id and the sequence number of a request survive every encryption mode.
  lemma {:induction false} RequestSurvives(c: Cipher, p: seq<byte>, sessionKey: seq<byte>)
    requires c.Sound() && |p| >= 0x20 && (EncryptMode(p) == 2 ==> sessionKey != [])
    ensures LinkId(c, Sent(c, p, sessionKey), sessionKey) == Some(U32(p, 0x1C))
    ensures EncryptMode(p) != 3 ==>
              RequestSqnum(c, Sent(c, p, sessionKey), sessionKey) == U32(p, 0x0C)
  {
    hide LE, EncryptMode, PerFrameKey;
    var f := Sent(c, p, sessionKey);
    SentKeepsHeader(c, p, sessionKey);
    if EncryptMode(p) == 1 || EncryptMode(p) == 2 {
      var key := if EncryptMode(p) == 1 then PerFrameKey(p) else sessionKey;
      FirstBlock(c, key, p[0x18..]);
      assert f[0x18..0x20] == EcbEnc(c, key, p[0x18..])[..8];
      assert p[0x18..][..8][4..8] == p[0x1C..0x20];
      assert c.Undone(key, p[0x0C..0x14]);
      assert EncryptPayload(c, key, p)[0x0C..0x14] == p[0x0C..0x14];
      assert f[0x0C..0x14] == c.enc(key, p[0x0C..0x14]);
      assert p[0x0C..0x14][..4] == p[0x0C..0x10];
    }
  }

  // Without a session key, and in mode 3, the number is taken to be encrypted per frame.
  lemma {:induction false} PerFrameFallback(c: Cipher, p: seq<byte>, key: seq<byte>)
    requires c.Sound() && |p| >= HEADER_SIZE && EncryptMode(p) != 0 && (EncryptMode(p) == 2 ==> key == [])
    ensures RequestSqnum(c, EncryptSqChk(c, PerFrameKey(p), p), key) == U32(p, 0x0C)
  {
    hide LE;
    var f := EncryptSqChk(c, PerFrameKey(p), p);
    assert f[..4] == p[..4] && f[0x14..0x18] == p[0x14..0x18];
    assert f[0x14..0x17] == f[0x14..0x18][..3] && p[0x14..0x17] == p[0x14..0x18][..3];
    assert c.Undone(PerFrameKey(p), p[0x0C..0x14]);
    assert f[0x0C..0x14] == c.enc(PerFrameKey(p), p[0x0C..0x14]);
    assert p[0x0C..0x14][..4] == p[0x0C..0x10];
  }

  // What cannot be read: a number without a full header, and a link id that is not there or
  // whose session key is missing.
  lemma {:induction false} Unreadable(c: Cipher, req: seq<byte>, key: seq<byte>)
    requires |req| >= CRYPTO_HDR
    ensures |req| < HEADER_SIZE ==> RequestSqnum(c, req, key) == 0
    ensures LinkId(c, req, key).None? <==> |req| < 0x20 || (req[0x16] % 4 == 2 && key == [])
  {
    hide LE, EncryptMode, PerFrameKey;
    ModeByte(req);
  }

  // Where each part of a sealed frame lies, and what was done to it: payload and numbers are under
  // the session key, and the id is masked with the encrypted numbers.
  lemma {:induction false} SealedRegions(c: Cipher, key: seq<byte>, f: seq<byte>)
    requires |f| >= CRYPTO_HDR
    ensures var r := Seal(c, key, f);
            && r[..4] == f[..4] && r[0x14..0x18] == f[0x14..0x18]
            && r[0x18..] == EcbEnc(c, key, f[0x18..])
            && r[0x0C..0x14] == c.enc(key, f[0x0C..0x14])
            && r[4..0x0C] == XorBytes(c.enc(GWELL_KEY, f[4..0x0C]), r[0x0C..0x14])
  {
    var g := EncryptPayload(c, key, f);
    var h := EncryptSqChk(c, key, g);
    PayloadRegion(c, key, f);
    NumbersRegion(c, key, g);
    IdRegion(c, h);
    hide EncryptPayload, EncryptSqChk, MaskId, EcbEnc, XorBytes;
    assert h[0x18..] == h[0x14..][4..] == g[0x14..][4..] == g[0x18..];
    assert h[0x14..0x18] == h[0x14..][..4] && g[0x14..0x18] == g[0x14..][..4];
    assert Seal(c, key, f)[0x18..] == Seal(c, key, f)[0x0C..][0x0C..] == h[0x18..];
  }

  lemma {:induction false} PayloadRegion(c: Cipher, key: seq<byte>, f: seq<byte>)
    requires |f| >= CRYPTO_HDR
    ensures var g := EncryptPayload(c, key, f);
            && g[..4] == f[..4] && g[4..0x0C] == f[4..0x0C] && g[0x0C..0x14] == f[0x0C..0x14]
            && g[0x14..0x18] == f[0x14..0x18] && g[0x18..] == EcbEnc(c, key, f[0x18..])
  {
    hide EcbEnc;
  }

  lemma {:induction false} NumbersRegion(c: Cipher, key: seq<byte>, f: seq<byte>)
    requires |f| >= CRYPTO_HDR
    ensures var g := EncryptSqChk(c, key, f);
            && g[..4] == f[..4] && g[4..0x0C] == f[4..0x0C] && g[0x14..] == f[0x14..]
            && g[0x0C..0x14] == c.enc(key, f[0x0C..0x14])
  {
  }

  lemma {:induction false} IdRegion(c: Cipher, f: seq<byte>)
    requires |f| >= CRYPTO_HDR
    ensures var g := MaskId(c, f);
            && g[..4] == f[..4] && g[0x0C..] == f[0x0C..] && g[0x0C..0x14] == f[0x0C..0x14]
            && g[0x14..0x18] == f[0x14..0x18]
            && g[4..0x0C] == XorBytes(c.enc(GWELL_KEY, f[4..0x0C]), f[0x0C..0x14])
  {
    hide XorBytes;
  }

  // ---------------------------------------------------------------- CALLING_ACK

  const DOORBELL_PORT: nat := 51850

  // (nonce << 1) | (2 << 16) | (1 << 20) | (1 << 25)
  function AckFlags(nonce: nat): nat {
    nonce * 2 + 2 * 0x1_0000 + 0x10_0000 + 0x200_0000
  }

  // The plaintext ACK without its checksum.
  function AckFields(id: block8, sqnum: nat, nonce: nat, ip: seq<byte>): (t: seq<Field>)
    requires |ip| == 4
    ensures InOrder(40, t)
  {
    var t := [At(0, [0x7E, 0xA4]), At(2, ToLE(40, 2)), At(4, id), At(0x0C, ToLE(sqnum, 4)),
              At(0x14, ToLE(AckFlags(nonce), 4)),
              At(0x18, ToLE(1, 2)),                 // opt_with_netaddr
              At(0x1A, ToLE(0, 2)),                 // ack_result: success
              At(0x20, ip), At(0x24, ToBE16(DOORBELL_PORT))];
    AscendingInOrder(40, t);
    t
  }

  // f with its own checksum stored in it.
  function WithChkval(f: seq<byte>): (g: seq<byte>)
    requires |f| >= CRYPTO_HDR
    ensures |g| == |f|
  {
    Put(f, 0x10, ToLE(Chkval.Value(f), 4))
  }

  // A stored checksum is the checksum of the frame that holds it.
  lemma {:induction false} ChkvalStored(f: seq<byte>)
    requires |f| >= CRYPTO_HDR
    ensures var g := WithChkval(f);
            && U32(g, 0x10) == Chkval.Value(g) == Chkval.Value(f)
            && g[..0x10] == f[..0x10] && g[0x14..] == f[0x14..]
  {
    hide LE, ToLE, Chkval.Value, Put;
    var g := WithChkval(f);
    assert g[0..0x10] == f[0..0x10] && g[0x14..0x17] == f[0x14..0x17];
    assert g[0x14..|f|] == f[0x14..|f|] && g[0x18..|f|] == f[0x18..|f|];
    Chkval.IgnoresStoredValue(f, g);
    Chkval.ValueBound(f);
    WordSizes();
    UnpackPack(Chkval.Value(f), 4);
  }

  // Storing the checksum leaves every field of the table readable.
  lemma {:induction false} StoredField(n: nat, t: seq<Field>, k: nat)
    requires InOrder(n, t) && n >= CRYPTO_HDR && k < |t|
    requires t[k].End() <= 0x10 || 0x14 <= t[k].off
    ensures t[k].End() <= n && WithChkval(Render(n, t))[t[k].off..t[k].End()] == t[k].bytes
  {
    hide Chkval.Value, Put, Render;
    FieldAt(n, t, k);
  }

  function Ack(id: block8, sqnum: nat, nonce: nat, ip: seq<byte>): (f: seq<byte>)
    requires |ip| == 4
    ensures |f| == 40
  {
    WithChkval(Render(40, AckFields(id, sqnum, nonce, ip)))
  }

  // term_id of a response: the session id from CERTIFY, else the server's own id.
  function ResponseId(sids: AddrMap<seq<byte>>, addr: Addr, serverTermId: int): block8
    requires IsInt64(serverTermId)
  {
    var sid := FindBytes(sids, addr);
    if |sid| >= 8 then sid[..8] else PackQ(serverTermId)
  }

  // The session encryption: three regions of the buffer, each encrypted in place.
  method SealInPlace(c: Cipher, key: seq<byte>, resp: array<byte>)
    requires resp.Length >= CRYPTO_HDR
    modifies resp
    ensures resp[..] == Seal(c, key, old(resp[..]))
  {
    hide EcbEnc;
    ghost var plain := resp[..];
    Write(resp, 0x18, EcbEnc(c, key, resp[0x18..]));
    assert resp[..] == EncryptPayload(c, key, plain);
    Write(resp, 0x0C, c.enc(key, resp[0x0C..0x14]));
    assert resp[..] == EncryptSqChk(c, key, EncryptPayload(c, key, plain));
    Write(resp, 4, XorBytes(c.enc(GWELL_KEY, resp[4..0x0C]), resp[0x0C..0x14]));
  }

  // build_calling_ack: fill the buffer, store the checksum, encrypt in place.
  method BuildCallingAck(c: Cipher, keys: AddrMap<seq<byte>>, sids: AddrMap<seq<byte>>,
                         serverTermId: int, request: seq<byte>, addr: Addr, nonce: nat,
                         ip: seq<byte>) returns (r: Option<seq<byte>>)
    requires IsInt64(serverTermId) && nonce < 0x8000 && |ip| == 4
    ensures var key := FindBytes(keys, addr);
            r == if key == [] then None
                 else Some(Seal(c, key, Ack(ResponseId(sids, addr, serverTermId),
                                            RequestSqnum(c, request, key), nonce, ip)))
  {
    hide RequestSqnum, FindBytes, ResponseId, Seal, Render, AckFields, Chkval.Value;
    var key := FindBytes(keys, addr);
    if key == [] { return None; }
    var sqnum := RequestSqnum(c, request, key);
    var id := ResponseId(sids, addr, serverTermId);
    var resp := Fill(40, AckFields(id, sqnum, nonce, ip));
    var chkval := Chkval.Compute(resp[..]);
    Write(resp, 0x10, ToLE(chkval, 4));
    SealInPlace(c, key, resp);
    r := Some(resp[..]);
  }

  // Bytes that no field covers and that are not the checksum's are zero.
  lemma {:induction false} StoredGap(n: nat, t: seq<Field>, k: nat, b: nat)
    requires InOrder(n, t) && n >= CRYPTO_HDR && k < |t| && t[k].End() >= 0x14
    requires t[k].End() <= b <= (if k + 1 < |t| then t[k + 1].off else n)
    ensures b <= n && WithChkval(Render(n, t))[t[k].End()..b] == Zeros(b - t[k].End())
  {
    hide Chkval.Value, Put, Render;
    GapAfter(n, t, k, b);
  }

  // The plaintext ACK byte by byte: type 0xA4 in session protocol, 40 bytes, encryption mode 2, ACK
  // and relay flags, a network address with result 0, and the doorbell's address and port 51850.
  lemma {:induction false} AckContents(id: block8, sqnum: nat, nonce: nat, ip: seq<byte>)
    requires sqnum < 0x1_0000_0000 && nonce < 0x8000 && |ip| == 4
    ensures var plain := Ack(id, sqnum, nonce, ip);
            && plain[0..2] == [0x7E, 0xA4] && plain[2..4] == [40, 0]
            && plain[4..0x0C] == id && U32(plain, 0x0C) == sqnum
            && U32(plain, 0x10) == Chkval.Value(plain) && EncryptMode(plain) == 2
            && DecodeFlags(U32(plain, 0x14)) == Flags(false, nonce, 2, 0, true, false, false, false, true)
            && plain[0x18..0x1A] == [1, 0] && plain[0x1A..0x1C] == [0, 0] && plain[0x1C..0x20] == Zeros(4)
            && plain[0x20..0x24] == ip && plain[0x24..0x26] == [0xCA, 0x8A] && plain[0x26..0x28] == Zeros(2)
  {
    hide LE, ToLE, Chkval.Value, Put, Render, WithChkval, DecodeFlags, EncodeFlags;
    var t := AckFields(id, sqnum, nonce, ip);
    StoredField(40, t, 0);
    StoredField(40, t, 1);
    StoredField(40, t, 2);
    StoredField(40, t, 3);
    StoredField(40, t, 4);
    StoredField(40, t, 5);
    StoredField(40, t, 6);
    StoredField(40, t, 7);
    StoredField(40, t, 8);
    StoredGap(40, t, 6, 0x20);
    StoredGap(40, t, 8, 40);
    ChkvalStored(Render(40, t));
    ShortFields();
    WordSizes();
    UnpackPack(sqnum, 4);
    UnpackPack(AckFlags(nonce), 4);
    AckFlagsDecode(nonce);
    ModeByte(Ack(id, sqnum, nonce, ip));
  }

  lemma {:induction false} AckFlagsDecode(nonce: nat)
    requires nonce < 0x8000
    ensures DecodeFlags(AckFlags(nonce)) == Flags(false, nonce, 2, 0, true, false, false, false, true)
  {
    hide DecodeFlags;
    FlagsRoundTrip(Flags(false, nonce, 2, 0, true, false, false, false, true));
  }

  lemma {:induction false} ShortFields()
    ensures ToLE(40, 2) == [40, 0] && ToLE(0x7A, 2) == [0x7A, 0] && ToLE(0, 2) == [0, 0]
    ensures ToLE(1, 2) == [1, 0] && ToLE(3, 2) == [3, 0]
  {
  }

  // What the requester finds after undoing the three encryption steps: the plaintext frame,
  // a checksum that is right for it, and the sequence number the relay read.
  lemma {:induction false} AckIsUndone(c: Cipher, key: seq<byte>, id: block8, sqnum: nat, nonce: nat, ip: seq<byte>)
    requires c.Sound() && key != [] && sqnum < 0x1_0000_0000 && nonce < 0x8000 && |ip| == 4
    ensures var plain := Ack(id, sqnum, nonce, ip);
            var sealed := Seal(c, key, plain);
            && Open(c, key, sealed) == plain
            && U32(plain, 0x10) == Chkval.Value(plain)
            && RequestSqnum(c, sealed, key) == sqnum
  {
    hide Seal, Open, Ack, U32, Chkval.Value, RequestSqnum, EncryptMode;
    AckContents(id, sqnum, nonce, ip);
    OpenUndoesSeal(c, key, Ack(id, sqnum, nonce, ip));
    SealedSqnum(c, key, Ack(id, sqnum, nonce, ip));
  }

  lemma {:induction false} SealedSqnum(c: Cipher, key: seq<byte>, f: seq<byte>)
    requires c.Sound() && key != [] && |f| >= HEADER_SIZE && EncryptMode(f) == 2
    ensures RequestSqnum(c, Seal(c, key, f), key) == U32(f, 0x0C)
  {
    hide LE;
    var sealed := Seal(c, key, f);
    KeyBytesSurvive(c, key, f);
    assert c.Undone(key, f[0x0C..0x14]);
    assert EncryptPayload(c, key, f)[0x0C..0x14] == f[0x0C..0x14];
    assert sealed[0x0C..0x14] == c.enc(key, f[0x0C..0x14]);
    assert f[0x0C..0x14][..4] == f[0x0C..0x10];
  }

  lemma {:induction false} FourBytes(s: seq<byte>)
    requires |s| == 4
    ensures LE(s) < 0x1_0000_0000
  {
    LEBound(s);
    WordSizes();
  }

  lemma {:induction false} RequestSqnumBound(c: Cipher, req: seq<byte>, key: seq<byte>)
    ensures RequestSqnum(c, req, key) < 0x1_0000_0000
  {
    hide LE, EncryptMode, PerFrameKey;
    if |req| >= HEADER_SIZE {
      FourBytes(req[0x0C..0x10]);
      FourBytes(c.dec(key, req[0x0C..0x14])[..4]);
      FourBytes(c.dec(PerFrameKey(req), req[0x0C..0x14])[..4]);
    }
  }

  // The exchange end to end: whatever encryption mode the request is sent in, the ACK opens
  // to a frame that carries the request's own plaintext sequence number.
  lemma {:induction false} AckAnswersRequest(c: Cipher, p: seq<byte>, key: seq<byte>, id: block8, nonce: nat,
                           ip: seq<byte>)
    requires c.Sound() && key != [] && |p| >= 0x20 && EncryptMode(p) != 3
    requires nonce < 0x8000 && |ip| == 4
    ensures var reply := Seal(c, key, Ack(id, RequestSqnum(c, Sent(c, p, key), key), nonce, ip));
            U32(Open(c, key, reply), 0x0C) == U32(p, 0x0C)
  {
    hide Seal, Open, Ack, U32, Chkval.Value, RequestSqnum, EncryptMode, Sent;
    var sqnum := RequestSqnum(c, Sent(c, p, key), key);
    RequestSurvives(c, p, key);
    RequestSqnumBound(c, Sent(c, p, key), key);
    AckContents(id, sqnum, nonce, ip);
    OpenUndoesSeal(c, key, Ack(id, sqnum, nonce, ip));
  }

  // ---------------------------------------------------------------- MTP_RES_RESP

  // The relay's counters that the builders advance.
  class Counters {
    var serverSqnum: nat
    var mtpLinkCounter: nat

    constructor (sqnum: nat)
      requires sqnum < 0x1_0000_0000
      ensures serverSqnum == sqnum && mtpLinkCounter == 1
    {
      serverSqnum := sqnum;
      mtpLinkCounter := 1;
    }

    // next_sqnum
    method NextSqnum() returns (sq: nat)
      modifies this`serverSqnum
      ensures sq == old(serverSqnum)
      ensures serverSqnum == (old(serverSqnum) + 1) % 0x1_0000_0000
    {
      sq := serverSqnum;
      serverSqnum := (serverSqnum + 1) % 0x1_0000_0000;
    }
  }

  // The response without its checksum.
  function MtpResFields(id: block8, sqnum: nat, linkId: nat, localIp: seq<byte>,
                        doorbellIp: seq<byte>, port: nat): (t: seq<Field>)
    requires |localIp| == 4 && |doorbellIp| == 4 && port < 0x1_0000
    ensures InOrder(0x7A, t)
  {
    var t := [At(0, [0x7E, 0xA3]), At(2, ToLE(0x7A, 2)), At(4, id), At(0x0C, ToLE(sqnum, 4)),
              At(0x14, ToLE(0x200_0000, 4)),        // relay_flag only
              At(0x18, ToLE(3, 2) + ToLE(0, 2)),    // flags2 and ack_result
              At(0x1C, ToLE(linkId, 4)),
              At(0x32, [1]), At(0x3C, localIp + localIp),
              At(0x56, [1]), At(0x58, ToBE16(port) + ToBE16(port) + ToBE16(0) + ToBE16(port)),
              At(0x60, [1, 2, 3, 4] + doorbellIp)]; // a made-up outer address, the LAN address
    AscendingInOrder(0x7A, t);
    t
  }

  function MtpRes(id: block8, sqnum: nat, linkId: nat, localIp: seq<byte>,
                  doorbellIp: seq<byte>, port: nat): (f: seq<byte>)
    requires |localIp| == 4 && |doorbellIp| == 4 && port < 0x1_0000
    ensures |f| == 0x7A
  {
    WithChkval(Render(0x7A, MtpResFields(id, sqnum, linkId, localIp, doorbellIp, port)))
  }

  lemma {:induction false} LinkIdFits(c: Cipher, req: seq<byte>, key: seq<byte>)
    requires |req| >= CRYPTO_HDR
    ensures LinkId(c, req, key).Some? ==> LinkId(c, req, key).value < 0x1_0000_0000
  {
    hide LE, EncryptMode, PerFrameKey;
    if |req| >= 0x20 {
      FourBytes(req[0x1C..0x20]);
      FourBytes(c.dec(key, req[0x18..0x20])[4..8]);
      FourBytes(c.dec(PerFrameKey(req), req[0x18..0x20])[4..8]);
    }
  }

  // build_mtp_res_resp; None where a link id from the counter does not fit its field, which is
  // noticed only after both counters have advanced.  Session ids are 8 bytes: CERTIFY stores nothing else.
  method BuildMtpRes(c: Cipher, relay: Counters, keys: AddrMap<seq<byte>>, sids: AddrMap<seq<byte>>,
                     serverTermId: int, request: seq<byte>, addr: Addr, localIp: seq<byte>,
                     doorbellIp: seq<byte>, port: nat) returns (r: Option<seq<byte>>)
    requires IsInt64(serverTermId) && |request| >= CRYPTO_HDR
    requires forall i :: 0 <= i < |sids| ==> |sids[i].1| == 8
    requires |localIp| == 4 && |doorbellIp| == 4 && port < 0x1_0000
    modifies relay
    ensures var sid := Get(sids, addr).GetOr(PackQ(serverTermId));
            var link := LinkId(c, request, FindBytes(keys, addr));
            && |sid| == 8
            && r == (if link.None? && old(relay.mtpLinkCounter) >= 0x1_0000_0000 then None
                     else Some(MtpRes(sid, old(relay.serverSqnum), link.GetOr(old(relay.mtpLinkCounter)),
                                      localIp, doorbellIp, port)))
            && relay.mtpLinkCounter == old(relay.mtpLinkCounter) + (if link.None? then 1 else 0)
    ensures relay.serverSqnum == (old(relay.serverSqnum) + 1) % 0x1_0000_0000
  {
    hide LinkId, FindBytes, Render, MtpResFields, Chkval.Value, PackQ;
    var link := LinkId(c, request, FindBytes(keys, addr));
    if link == None {
      link := Some(relay.mtpLinkCounter);
      relay.mtpLinkCounter := relay.mtpLinkCounter + 1;
    }
    GetValue(sids, addr);
    var sid := Get(sids, addr).GetOr(PackQ(serverTermId));
    var sqnum := relay.NextSqnum();
    LinkIdFits(c, request, FindBytes(keys, addr));
    if link.value >= 0x1_0000_0000 { return None; }
    var resp := Fill(0x7A, MtpResFields(sid, sqnum, link.value, localIp, doorbellIp, port));
    var chkval := Chkval.Compute(resp[..]);
    Write(resp, 0x10, ToLE(chkval, 4));
    r := Some(resp[..]);
  }

  // The response byte by byte: type 0xA3 in session protocol, 0x7A bytes, only the relay flag,
  // result 0; the relay's own address as the calling peer, and as the called peer a made-up outer
  // address, the doorbell's LAN address and its port, with no relay servers.
  lemma {:induction false} MtpResContents(id: block8, sqnum: nat, linkId: nat, localIp: seq<byte>,
                                          doorbellIp: seq<byte>, port: nat)
    requires |localIp| == 4 && |doorbellIp| == 4 && port < 0x1_0000 && sqnum < 0x1_0000_0000
    ensures var r := MtpRes(id, sqnum, linkId, localIp, doorbellIp, port);
            && r[0..2] == [0x7E, 0xA3] && r[2..4] == [0x7A, 0] && r[4..0x0C] == id && U32(r, 0x0C) == sqnum
            && DecodeFlags(U32(r, 0x14)) == Flags(false, 0, 0, 0, false, false, false, false, true)
            && r[0x18..0x1C] == [3, 0, 0, 0] && r[0x20..0x32] == Zeros(18)
            && r[0x32..0x33] == [1] && r[0x33..0x3C] == Zeros(9)
            && r[0x3C..0x44] == localIp + localIp && r[0x44..0x56] == Zeros(18)
    ensures var r := MtpRes(id, sqnum, linkId, localIp, doorbellIp, port);
            && r[0x56..0x57] == [1] && r[0x57..0x58] == Zeros(1)
            && r[0x58..0x60] == [port / 256, port % 256, port / 256, port % 256, 0, 0, port / 256, port % 256]
            && r[0x60..0x68] == [1, 2, 3, 4] + doorbellIp && r[0x68..0x7A] == Zeros(18)
  {
    hide LE, ToLE, Chkval.Value, Put, Render, WithChkval, DecodeFlags, EncodeFlags;
    var t := MtpResFields(id, sqnum, linkId, localIp, doorbellIp, port);
    MtpResHeader(t, id, sqnum);
    MtpResPeers(t, localIp, doorbellIp, port);
  }

  lemma {:induction false} MtpResHeader(t: seq<Field>, id: block8, sqnum: nat)
    requires InOrder(0x7A, t) && |t| == 12 && sqnum < 0x1_0000_0000
    requires t[0] == At(0, [0x7E, 0xA3]) && t[1] == At(2, ToLE(0x7A, 2)) && t[2] == At(4, id)
    requires t[3] == At(0x0C, ToLE(sqnum, 4)) && t[4] == At(0x14, ToLE(0x200_0000, 4))
    requires t[5] == At(0x18, ToLE(3, 2) + ToLE(0, 2))
    ensures var r := WithChkval(Render(0x7A, t));
            && r[0..2] == [0x7E, 0xA3] && r[2..4] == [0x7A, 0] && r[4..0x0C] == id && U32(r, 0x0C) == sqnum
            && DecodeFlags(U32(r, 0x14)) == Flags(false, 0, 0, 0, false, false, false, false, true)
            && r[0x18..0x1C] == [3, 0, 0, 0]
  {
    hide LE, ToLE, Chkval.Value, Put, Render, WithChkval, DecodeFlags, InOrder;
    StoredField(0x7A, t, 0);
    StoredField(0x7A, t, 1);
    StoredField(0x7A, t, 2);
    StoredField(0x7A, t, 3);
    StoredField(0x7A, t, 4);
    StoredField(0x7A, t, 5);
    ShortFields();
    WordSizes();
    UnpackPack(sqnum, 4);
    UnpackPack(0x200_0000, 4);
    FlagsRoundTrip(Flags(false, 0, 0, 0, false, false, false, false, true));
  }

  lemma {:induction false} MtpResPeers(t: seq<Field>, localIp: seq<byte>, doorbellIp: seq<byte>, port: nat)
    requires InOrder(0x7A, t) && |t| == 12 && |localIp| == 4 && |doorbellIp| == 4 && port < 0x1_0000
    requires t[6].off == 0x1C && t[6].End() == 0x20 && t[7] == At(0x32, [1]) && t[8] == At(0x3C, localIp + localIp)
    requires t[9] == At(0x56, [1]) && t[10] == At(0x58, ToBE16(port) + ToBE16(port) + ToBE16(0) + ToBE16(port))
    requires t[11] == At(0x60, [1, 2, 3, 4] + doorbellIp)
    ensures var r := WithChkval(Render(0x7A, t));
            && r[0x20..0x32] == Zeros(18) && r[0x32..0x33] == [1] && r[0x33..0x3C] == Zeros(9)
            && r[0x3C..0x44] == localIp + localIp && r[0x44..0x56] == Zeros(18)
            && r[0x56..0x57] == [1] && r[0x57..0x58] == Zeros(1)
            && r[0x58..0x60] == [port / 256, port % 256, port / 256, port % 256, 0, 0, port / 256, port % 256]
            && r[0x60..0x68] == [1, 2, 3, 4] + doorbellIp && r[0x68..0x7A] == Zeros(18)
  {
    hide Chkval.Value, Put, Render, WithChkval, InOrder;
    StoredGap(0x7A, t, 6, 0x32);
    StoredField(0x7A, t, 7);
    StoredGap(0x7A, t, 7, 0x3C);
    StoredField(0x7A, t, 8);
    StoredGap(0x7A, t, 8, 0x56);
    StoredField(0x7A, t, 9);
    StoredGap(0x7A, t, 9, 0x58);
    StoredField(0x7A, t, 10);
    StoredField(0x7A, t, 11);
    StoredGap(0x7A, t, 11, 0x7A);
  }

  lemma {:induction false} GetValue<V>(m: AddrMap<V>, addr: Addr)
    ensures Get(m, addr).Some? ==> exists i :: 0 <= i < |m| && m[i].1 == Get(m, addr).value
  {
    if m != [] && m[0].0 != addr {
      GetValue(m[1..], addr);
      if Get(m[1..], addr).Some? {
        var i :| 0 <= i < |m[1..]| && m[1..][i].1 == Get(m[1..], addr).value;
        assert m[i + 1].1 == Get(m, addr).value;
      }
    } else if m != [] {
      assert m[0].1 == Get(m, addr).value;
    }
  }

  // Whatever encryption mode the caller uses, the response carries the caller's own link id,
  // and its checksum is right for the frame as sent.
  lemma {:induction false} LinkIdSurvives(c: Cipher, p: seq<byte>, key: seq<byte>, id: block8, sqnum: nat,
                       other: nat, localIp: seq<byte>, doorbellIp: seq<byte>, port: nat)
    requires c.Sound() && |p| >= 0x20 && (EncryptMode(p) == 2 ==> key != [])
    requires |localIp| == 4 && |doorbellIp| == 4 && port < 0x1_0000
    ensures var linkId := LinkId(c, Sent(c, p, key), key).GetOr(other);
            var r := MtpRes(id, sqnum, linkId, localIp, doorbellIp, port);
            r[0x1C..0x20] == p[0x1C..0x20] && U32(r, 0x10) == Chkval.Value(r)
  {
    hide LinkId, Sent, LE, ToLE, Chkval.Value, Put, Render, WithChkval;
    RequestSurvives(c, p, key);
    var t := MtpResFields(id, sqnum, U32(p, 0x1C), localIp, doorbellIp, port);
    StoredField(0x7A, t, 6);
    ChkvalStored(Render(0x7A, t));
    PackUnpack(p[0x1C..0x20]);
  }
}
