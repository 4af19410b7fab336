// The CERTIFY exchange in relay mode (_handle_certify_local): how the relay and a client come
// to hold the same session key.
module Certify {
  import opened Bytes
  import opened Bits
  import opened Words
  import opened FrameCrypto
  import opened Layout
  import opened SessionFrames
  import Rc5
  import KeySchedule

  // ---------------------------------------------------------------- the certify cipher

  type block16 = s: seq<byte> | |s| == 16 witness Zeros(16)

  // RC5 on 16-byte blocks under the certify key.
  datatype WideCipher = WideCipher(enc: (seq<byte>, block16) -> block16, dec: (seq<byte>, block16) -> block16)
  {
    predicate Undone(key: seq<byte>, d: block16) {
      dec(key, enc(key, d)) == d
    }

    ghost predicate Sound() {
      forall key, d :: Undone(key, d)
    }
  }

  // RC5(block_bytes=16, rounds=6)
  function Rc5Cipher16(): WideCipher {
    WideCipher((key, d) => Rc5.EncryptBlock(KeySchedule.Expand(SourceWords(8), 6, key), d),
               (key, d) => Rc5.DecryptBlock(KeySchedule.Expand(SourceWords(8), 6, key), d))
  }

  lemma {:induction false} Rc5Cipher16Sound()
    ensures Rc5Cipher16().Sound()
  {
    hide Rc5.EncryptBlock, Rc5.DecryptBlock, KeySchedule.Expand;
    SourceWordsSound(8);
    forall key: seq<byte>, d: block16 ensures Rc5Cipher16().Undone(key, d) {
      Rc5.BlockRoundTrip(KeySchedule.Expand(SourceWords(8), 6, key), d);
    }
  }

  // decrypt_session_key, and what the client did to its 32-byte key.
  function DecryptKey(w: WideCipher, certifyKey: seq<byte>, e: seq<byte>): (k: seq<byte>)
    requires |e| == 32
    ensures |k| == 32
  {
    w.dec(certifyKey, e[..16]) + w.dec(certifyKey, e[16..])
  }

  function EncryptKey(w: WideCipher, certifyKey: seq<byte>, k: seq<byte>): (e: seq<byte>)
    requires |k| == 32
    ensures |e| == 32
  {
    w.enc(certifyKey, k[..16]) + w.enc(certifyKey, k[16..])
  }

  lemma {:induction false} KeyDecrypts(w: WideCipher, certifyKey: seq<byte>, k: seq<byte>)
    requires w.Sound() && |k| == 32
    ensures DecryptKey(w, certifyKey, EncryptKey(w, certifyKey, k)) == k
  {
    var e := EncryptKey(w, certifyKey, k);
    assert e[..16] == w.enc(certifyKey, k[..16]) && e[16..] == w.enc(certifyKey, k[16..]);
    assert w.Undone(certifyKey, k[..16]) && w.Undone(certifyKey, k[16..]);
    assert k == k[..16] + k[16..];
  }

  // That is the ECB of the RC5 class with 16-byte blocks and 6 rounds.
  lemma {:induction false} TwoBlocksAreEcb(certifyKey: seq<byte>, e: seq<byte>)
    requires |e| == 32
    ensures var k := KeySchedule.Expand(SourceWords(8), 6, certifyKey);
            && k.BlockBytes() == 16 && Rc5.WholeBlocks(32, 16)
            && DecryptKey(Rc5Cipher16(), certifyKey, e) == Rc5.Decrypt(k, e)
  {
    hide Rc5.EncryptBlock, Rc5.DecryptBlock, KeySchedule.Expand, Pow2;
    var k := KeySchedule.Expand(SourceWords(8), 6, certifyKey);
    assert e[16..][..16] == e[16..] && e[16..][16..] == [];
    assert Rc5.Decrypt(k, e[16..]) == Rc5.DecryptBlock(k, e[16..]) + [] == Rc5.DecryptBlock(k, e[16..]);
  }

  // giot_hash_string: h ^ (b + h * 0x20 + (h >> 2)) over the bytes, on 32 bits.
  function Giot(data: seq<byte>): (h: nat)
    ensures h < 0x1_0000_0000
  {
    if |data| == 0 then 0x4E67_C6A7 else GiotStep(Giot(data[..|data| - 1]), data[|data| - 1])
  }

  function GiotStep(h: nat, b: byte): (r: nat)
    ensures r < 0x1_0000_0000
  {
    Xor(h, b + h * 0x20 + h / 4) % 0x1_0000_0000
  }

  method GiotHash(data: seq<byte>) returns (h: nat)
    ensures h == Giot(data)
  {
    hide GiotStep;
    h := 0x4E67_C6A7;
    for i := 0 to |data|
      invariant h == Giot(data[..i])
    {
      assert data[..i + 1][..i] == data[..i];
      h := GiotStep(h, data[i]);
    }
    assert data[..|data|] == data;
  }

  // ---------------------------------------------------------------- the relay's decision

  // payload = data[0x18:], per-frame decrypted in mode 1 (a tail shorter than a block is cut).
  function CertifyPayload(c: Cipher, data: seq<byte>): seq<byte>
    requires |data| >= CRYPTO_HDR
  {
    var payload := data[0x18..];
    var whole := |payload| / 8 * 8;
    if EncryptMode(data) == 1 && whole > 0
    then EcbDec(c, PerFrameKey(data), payload[..whole]) else payload
  }

  // is_ack: bit 20 of the flags.
  predicate IsAckFlag(data: seq<byte>)
    requires |data| >= CRYPTO_HDR
  {
    (U32(data, 0x14) / 0x10_0000) % 2 == 1
  }

  // What the world outside contributes: the certify key from the access token (if any), 32
  // random bytes, the key captured by the bridge (if any) and the upstream's answer (if any).
  datatype World = World(certifyKey: Option<seq<byte>>, random: seq<byte>,
                         captured: Option<seq<byte>>, upstream: Option<seq<byte>>)
  {
    predicate Valid() {
      |random| == 32 && (captured.Some? ==> |captured.value| == 32)
    }
  }

  // stored: the session key the relay keeps for the client, if it stores one.
  datatype Decision =
    | NoReply
    | Forward(frame: seq<byte>)
    | Reply(stored: Option<seq<byte>>, serverKey: seq<byte>, sessionId: seq<byte>)

  // The client's key, if it decrypts and its hash is the one in the request.
  function VerifiedKey(w: WideCipher, payload: seq<byte>, world: World): (k: Option<seq<byte>>)
    requires |payload| >= 40
    ensures k.Some? ==> |k.value| == 32
  {
    if world.certifyKey.None? then None
    else
      var k := DecryptKey(w, world.certifyKey.value, payload[8..40]);
      if Giot(k) == LE(payload[4..8]) then Some(k) else None
  }

  function Decide(c: Cipher, w: WideCipher, data: seq<byte>, world: World): (d: Decision)
    requires |data| >= CRYPTO_HDR && world.Valid()
    ensures d.Reply? ==> |d.serverKey| == 32 && |d.sessionId| == 8
  {
    var payload := CertifyPayload(c, data);
    if IsAckFlag(data) || |payload| < 40 then NoReply
    else
      var k := VerifiedKey(w, payload, world);
      var sessionId := payload[..8];
      if k.Some? then Reply(Some(XorBytes(k.value, world.random)), world.random, sessionId)
      else if world.captured.Some? then Reply(world.captured, Zeros(32), sessionId)
      else if world.upstream.Some? then Forward(world.upstream.value)
      else Reply(None, Zeros(32), sessionId)
  }

  // ---------------------------------------------------------------- the response

  // (nonce << 1) | (1 << 16) | (1 << 21)
  function CertifyFlags(nonce: nat): nat {
    nonce * 2 + 0x1_0000 + 0x20_0000
  }

  function CertifyFields(id: block8, sqnum: nat, reqSqnum: nat, nonce: nat,
                         sessionId: seq<byte>, serverKey: seq<byte>): (t: seq<Field>)
    requires |sessionId| == 8 && |serverKey| == 32
    ensures InOrder(0x50, t)
  {
    var t := [At(0, [0x7F, 0x0D]), At(2, ToLE(0x50, 2)), At(4, id), At(0x0C, ToLE(sqnum, 4)),
              At(0x10, ToLE(reqSqnum, 4)), At(0x14, ToLE(CertifyFlags(nonce), 4)),
              At(0x18, ToLE(1, 2) + ToLE(0, 2)), At(0x1C, sessionId), At(0x24, serverKey)];
    AscendingInOrder(0x50, t);
    t
  }

  // Payload first, then sqnum and chkval, both under the key from the response's own header.
  function PerFrameSeal(c: Cipher, f: seq<byte>): (r: seq<byte>)
    requires |f| >= CRYPTO_HDR
    ensures |r| == |f|
  {
    EncryptSqChk(c, PerFrameKey(f), EncryptPayload(c, PerFrameKey(f), f))
  }

  // The response's payload and numbers are under the per-frame key, the rest of it in the clear.
  lemma {:induction false} PerFrameRegions(c: Cipher, f: seq<byte>)
    requires |f| >= CRYPTO_HDR
    ensures var r := PerFrameSeal(c, f);
            && r[..0x0C] == f[..0x0C] && r[0x14..0x18] == f[0x14..0x18]
            && r[0x0C..0x14] == c.enc(PerFrameKey(f), f[0x0C..0x14])
            && r[0x18..] == EcbEnc(c, PerFrameKey(f), f[0x18..])
  {
    hide EcbEnc, PerFrameKey;
    var g := EncryptPayload(c, PerFrameKey(f), f);
    assert g[..0x18] == f[..0x18] && g[0x18..] == EcbEnc(c, PerFrameKey(f), f[0x18..]);
    assert g[0x0C..0x14] == f[0x0C..0x14];
    var r := PerFrameSeal(c, f);
    assert r[0x14..] == g[0x14..] && r[0x18..] == g[0x14..][4..] == g[0x18..];
  }

  // The client derives the key from the received header and undoes both steps.
  function PerFrameOpen(c: Cipher, r: seq<byte>): (f: seq<byte>)
    requires |r| >= CRYPTO_HDR
    ensures |f| == |r|
  {
    DecryptPayload(c, PerFrameKey(r), DecryptSqChk(c, PerFrameKey(r), r))
  }

  lemma {:induction false} PerFrameOpenUndoes(c: Cipher, f: seq<byte>)
    requires c.Sound() && |f| >= CRYPTO_HDR
    ensures PerFrameOpen(c, PerFrameSeal(c, f)) == f
  {
    hide EncryptSqChk, DecryptSqChk, EncryptPayload, DecryptPayload, PerFrameKey, Seal;
    var key := PerFrameKey(f);
    KeyBytesSurvive(c, key, f);
    SqChkUndone(c, key, EncryptPayload(c, key, f));
    PayloadUndone(c, key, f);
  }

  function CertifyResp(id: block8, sqnum: nat, reqSqnum: nat, nonce: nat,
                       sessionId: seq<byte>, serverKey: seq<byte>): (f: seq<byte>)
    requires |sessionId| == 8 && |serverKey| == 32
    ensures |f| == 0x50
  {
    Render(0x50, CertifyFields(id, sqnum, reqSqnum, nonce, sessionId, serverKey))
  }

  // The plaintext response byte by byte: type 0x0D in relay protocol, 0x50 bytes, the relay's id,
  // encryption mode 1, response flag, result 0; the header can be read before it is decrypted.
  lemma {:induction false} CertifyContents(c: Cipher, id: block8, sqnum: nat, reqSqnum: nat, nonce: nat,
                                           sessionId: seq<byte>, serverKey: seq<byte>)
    requires |sessionId| == 8 && |serverKey| == 32 && sqnum < 0x1_0000_0000 && reqSqnum < 0x1_0000_0000
    requires nonce < 0x8000
    ensures var f := CertifyResp(id, sqnum, reqSqnum, nonce, sessionId, serverKey);
            && f[0..2] == [0x7F, 0x0D] && f[2..4] == [0x50, 0] && f[4..0x0C] == id
            && U32(f, 0x0C) == sqnum && U32(f, 0x10) == reqSqnum
            && DecodeFlags(U32(f, 0x14)) == Flags(false, nonce, 1, 0, false, true, false, false, false)
            && f[0x18..0x1C] == [1, 0, 0, 0] && f[0x1C..0x24] == sessionId && f[0x24..0x44] == serverKey
            && f[0x44..0x50] == Zeros(12)
    ensures var r := PerFrameSeal(c, CertifyResp(id, sqnum, reqSqnum, nonce, sessionId, serverKey));
            && r[0..4] == [0x7F, 0x0D, 0x50, 0] && r[4..0x0C] == id && EncryptMode(r) == 1 && !IsAckFlag(r)
  {
    hide LE, ToLE, Render, DecodeFlags, EncodeFlags, U32, PerFrameSeal, EncryptMode;
    var t := CertifyFields(id, sqnum, reqSqnum, nonce, sessionId, serverKey);
    var f := Render(0x50, t);
    CertifyHeader(t, f, id, sqnum, reqSqnum, nonce);
    FieldAt(0x50, t, 6);
    FieldAt(0x50, t, 7);
    FieldAt(0x50, t, 8);
    GapAfter(0x50, t, 8, 0x50);
    CertifyFlagsDecode(nonce);
    ShortFields();
    SealKeepsHeader(c, f);
    var r := PerFrameSeal(c, f);
    assert r[0..4] == f[0..4] == f[0..2] + f[2..4];
    assert r[4..0x0C] == f[4..0x0C];
    ModeByte(r);
    AckBit(r);
  }

  lemma {:induction false} CertifyHeader(t: seq<Field>, f: seq<byte>, id: block8, sqnum: nat, reqSqnum: nat, nonce: nat)
    requires InOrder(0x50, t) && |t| == 9 && f == Render(0x50, t)
    requires t[0] == At(0, [0x7F, 0x0D]) && t[1] == At(2, ToLE(0x50, 2)) && t[2] == At(4, id)
    requires t[3] == At(0x0C, ToLE(sqnum, 4)) && t[4] == At(0x10, ToLE(reqSqnum, 4))
    requires t[5] == At(0x14, ToLE(CertifyFlags(nonce), 4))
    requires sqnum < 0x1_0000_0000 && reqSqnum < 0x1_0000_0000 && nonce < 0x8000
    ensures f[0..2] == [0x7F, 0x0D] && f[2..4] == [0x50, 0] && f[4..0x0C] == id
    ensures U32(f, 0x0C) == sqnum && U32(f, 0x10) == reqSqnum && U32(f, 0x14) == CertifyFlags(nonce)
  {
    hide LE, ToLE, Render, InOrder, Pow2;
    FieldAt(0x50, t, 0);
    FieldAt(0x50, t, 1);
    FieldAt(0x50, t, 2);
    FieldAt(0x50, t, 3);
    FieldAt(0x50, t, 4);
    FieldAt(0x50, t, 5);
    WordSizes();
    LengthBytes();
    UnpackPack(sqnum, 4);
    UnpackPack(reqSqnum, 4);
    UnpackPack(CertifyFlags(nonce), 4);
  }

  lemma {:induction false} LengthBytes()
    ensures ToLE(0x50, 2) == [0x50, 0]
  {
  }

  lemma {:induction false} CertifyFlagsDecode(nonce: nat)
    requires nonce < 0x8000
    ensures DecodeFlags(CertifyFlags(nonce)) == Flags(false, nonce, 1, 0, false, true, false, false, false)
  {
    hide DecodeFlags;
    FlagsRoundTrip(Flags(false, nonce, 1, 0, false, true, false, false, false));
  }

  lemma {:induction false} AckBit(f: seq<byte>)
    requires |f| >= CRYPTO_HDR
    ensures IsAckFlag(f) == DecodeFlags(U32(f, 0x14)).isAck
  {
  }

  lemma {:induction false} SealKeepsHeader(c: Cipher, f: seq<byte>)
    requires |f| >= CRYPTO_HDR
    ensures PerFrameSeal(c, f)[0..0x0C] == f[0..0x0C] && U32(PerFrameSeal(c, f), 0x14) == U32(f, 0x14)
  {
    hide LE, EcbEnc;
    var r := PerFrameSeal(c, f);
    assert r[0x14..0x18] == f[0x14..0x18];
  }

  // What the client reads out of a received CERTIFY_RESP.
  function ReadServerKey(c: Cipher, r: seq<byte>): seq<byte>
    requires |r| >= 0x44
  {
    PerFrameOpen(c, r)[0x24..0x44]
  }

  function ReadSessionId(c: Cipher, r: seq<byte>): seq<byte>
    requires |r| >= 0x44
  {
    PerFrameOpen(c, r)[0x1C..0x24]
  }

  function ReadAnsweredSqnum(c: Cipher, r: seq<byte>): nat
    requires |r| >= 0x44
  {
    U32(PerFrameOpen(c, r), 0x10)
  }

  lemma {:induction false} ResponseReadBack(c: Cipher, id: block8, sqnum: nat, reqSqnum: nat, nonce: nat,
                         sessionId: seq<byte>, serverKey: seq<byte>)
    requires c.Sound() && |sessionId| == 8 && |serverKey| == 32 && reqSqnum < 0x1_0000_0000
    ensures var r := PerFrameSeal(c, CertifyResp(id, sqnum, reqSqnum, nonce, sessionId, serverKey));
            && ReadServerKey(c, r) == serverKey && ReadSessionId(c, r) == sessionId
            && ReadAnsweredSqnum(c, r) == reqSqnum
  {
    hide LE, ToLE, Render, PerFrameOpen, PerFrameSeal;
    var t := CertifyFields(id, sqnum, reqSqnum, nonce, sessionId, serverKey);
    PerFrameOpenUndoes(c, Render(0x50, t));
    FieldAt(0x50, t, 4);
    FieldAt(0x50, t, 7);
    FieldAt(0x50, t, 8);
    WordSizes();
    UnpackPack(reqSqnum, 4);
  }

  // ---------------------------------------------------------------- the handler

  // dict[addr] = v: in place for a known address, at the end for a new one.
  function Set<V>(m: AddrMap<V>, addr: Addr, v: V): AddrMap<V> {
    if m == [] then [(addr, v)]
    else if m[0].0 == addr then [(addr, v)] + m[1..]
    else [m[0]] + Set(m[1..], addr, v)
  }

  lemma {:induction false} GetAfterSet<V>(m: AddrMap<V>, addr: Addr, v: V, other: Addr)
    ensures Get(Set(m, addr, v), other) == if other == addr then Some(v) else Get(m, other)
  {
    if m != [] && m[0].0 != addr {
      GetAfterSet(m[1..], addr, v, other);
      assert Set(m, addr, v)[1..] == Set(m[1..], addr, v);
    } else if m != [] {
      assert Set(m, addr, v)[1..] == m[1..];
    }
  }

  // What CERTIFY stores for an address is what a CALLING from it finds, whatever other ports of
  // the same IP have stored.
  lemma {:induction false} StoredIsFound(m: AddrMap<seq<byte>>, addr: Addr, v: seq<byte>)
    requires v != []
    ensures FindBytes(Set(m, addr, v), addr) == v
  {
    hide FirstByIp;
    GetAfterSet(m, addr, v, addr);
  }

  // The id of a response: the session id that CERTIFY stored, or the relay's own id.
  lemma {:induction false} ResponseIds(m: AddrMap<seq<byte>>, addr: Addr, sessionId: seq<byte>, serverTermId: int)
    requires |sessionId| == 8 && IsInt64(serverTermId)
    ensures ResponseId(Set(m, addr, sessionId), addr, serverTermId) == sessionId
    ensures (forall j :: 0 <= j < |m| ==> m[j].0.ip != addr.ip) ==>
              UnpackQ(ResponseId(m, addr, serverTermId)) == serverTermId
  {
    hide FindBytes, PackQ, UnpackQ, Set;
    StoredIsFound(m, addr, sessionId);
    UnpackPackQ(serverTermId);
    if forall j :: 0 <= j < |m| ==> m[j].0.ip != addr.ip {
      NoEntry(m, addr);
      FallsBackToIp(m, addr, 0);
    }
  }

  lemma {:induction false} NoEntry(m: AddrMap<seq<byte>>, addr: Addr)
    requires forall j :: 0 <= j < |m| ==> m[j].0.ip != addr.ip
    ensures Get(m, addr).None?
  {
    if m != [] { NoEntry(m[1..], addr); }
  }

  class KeyStore {
    var sessionKeys: map<int, seq<byte>>        // by term id
    var addrSessionKeys: AddrMap<seq<byte>>
    var addrSessionId: AddrMap<seq<byte>>
    var certified: set<int>                     // term ids of clients marked as certified
    var doorbellMtpPort: nat

    constructor ()
      ensures sessionKeys == map[] && addrSessionKeys == [] && addrSessionId == []
      ensures certified == {} && doorbellMtpPort == 0
    {
      sessionKeys, addrSessionKeys, addrSessionId := map[], [], [];
      certified, doorbellMtpPort := {}, 0;
    }

    // The doorbell's source port becomes its MTP port, and a known client is now certified.
    method MarkCertified(addr: Addr, termId: int, isDoorbell: bool, known: bool)
      modifies `certified, `doorbellMtpPort
      ensures doorbellMtpPort == if isDoorbell && addr.port > 0 then addr.port else old(doorbellMtpPort)
      ensures certified == old(certified) + if known then {termId} else {}
    {
      if isDoorbell && addr.port > 0 { doorbellMtpPort := addr.port; }
      if known { certified := certified + {termId}; }
    }

    // _handle_certify_local: the updates of the key tables and the response.  isDoorbell: the
    // address is the doorbell's; known: the term id is a registered client's.
    method Handle(c: Cipher, w: WideCipher, relay: Counters, serverTermId: int, data: seq<byte>,
                  addr: Addr, termId: int, isDoorbell: bool, known: bool, nonce: nat, world: World)
      returns (r: Option<seq<byte>>)
      requires |data| >= CRYPTO_HDR && world.Valid() && IsInt64(serverTermId)
      modifies this, relay
      ensures var d := Decide(c, w, data, world);
              var keep := d.Reply? && d.stored.Some?;
              && addrSessionKeys == (if keep then Set(old(addrSessionKeys), addr, d.stored.value)
                                     else old(addrSessionKeys))
              && sessionKeys == (if keep then old(sessionKeys)[termId := d.stored.value]
                                 else old(sessionKeys))
              && addrSessionId == (if d.Reply? then Set(old(addrSessionId), addr, d.sessionId)
                                   else old(addrSessionId))
              && r == match d
                      case NoReply => None
                      case Forward(f) => Some(f)
                      case Reply(_, serverKey, sessionId) =>
                        Some(PerFrameSeal(c, CertifyResp(PackQ(serverTermId), old(relay.serverSqnum),
                                                         RequestSqnum(c, data, []), nonce,
                                                         sessionId, serverKey)))
      ensures relay.serverSqnum == (if Decide(c, w, data, world).Reply?
                                    then (old(relay.serverSqnum) + 1) % 0x1_0000_0000
                                    else old(relay.serverSqnum))
      ensures relay.mtpLinkCounter == old(relay.mtpLinkCounter)
      ensures var answers := Decide(c, w, data, world).Reply?;
              && doorbellMtpPort == (if answers && isDoorbell && addr.port > 0 then addr.port else old(doorbellMtpPort))
              && certified == old(certified) + (if answers && known then {termId} else {})
    {
      hide CertifyPayload, VerifiedKey, IsAckFlag, RequestSqnum, PackQ, CertifyFields, Render, Set, PerFrameSeal;
      if IsAckFlag(data) { return None; }
      var payload := CertifyPayload(c, data);
      if |payload| < 40 { return None; }
      var sessionKey := VerifiedKey(w, payload, world);
      var clientSessionId := payload[..8];
      var serverKey;
      if sessionKey.Some? {
        serverKey := world.random;
        var stored := XorBytes(sessionKey.value, serverKey);
        sessionKeys := sessionKeys[termId := stored];
        addrSessionKeys := Set(addrSessionKeys, addr, stored);
      } else if world.captured.Some? {
        serverKey := Zeros(32);
        sessionKeys := sessionKeys[termId := world.captured.value];
        addrSessionKeys := Set(addrSessionKeys, addr, world.captured.value);
      } else {
        if world.upstream.Some? { return world.upstream; }
        serverKey := Zeros(32);
      }
      MarkCertified(addr, termId, isDoorbell, known);
      var sqnum := relay.NextSqnum();
      var reqSqnum := RequestSqnum(c, data, []);
      var resp := Fill(0x50, CertifyFields(PackQ(serverTermId), sqnum, reqSqnum, nonce,
                                           clientSessionId, serverKey));
      addrSessionId := Set(addrSessionId, addr, clientSessionId);
      PerFrameSealInPlace(c, resp);
      r := Some(resp[..]);
    }
  }

  method PerFrameSealInPlace(c: Cipher, resp: array<byte>)
    requires resp.Length >= CRYPTO_HDR
    modifies resp
    ensures resp[..] == PerFrameSeal(c, old(resp[..]))
  {
    hide EcbEnc;
    ghost var plain := resp[..];
    var key := PerFrameKey(resp[..]);
    Write(resp, 0x18, EcbEnc(c, key, resp[0x18..]));
    assert resp[..] == EncryptPayload(c, key, plain);
    Write(resp, 0x0C, c.enc(key, resp[0x0C..0x14]));
  }

  // ---------------------------------------------------------------- key agreement

  // A client that contributes key k: its hash at payload offset 4 and the key, encrypted under
  // the certify key, at offset 8.
  ghost predicate Honest(w: WideCipher, p: seq<byte>, certifyKey: seq<byte>, k: seq<byte>)
  {
    && |p| >= 0x40 && |k| == 32
    && !IsAckFlag(p) && EncryptMode(p) <= 1
    && U32(p, 0x1C) == Giot(k)
    && p[0x20..0x40] == EncryptKey(w, certifyKey, k)
  }

  lemma {:induction false} EcbOfPrefix(c: Cipher, key: seq<byte>, m: seq<byte>)
    requires c.Sound()
    ensures var whole := |m| / 8 * 8;
            EcbDec(c, key, EcbEnc(c, key, m)[..whole]) == m[..whole]
  {
    var whole := |m| / 8 * 8;
    if |m| >= 8 {
      var e := EcbEnc(c, key, m);
      EcbOfPrefix(c, key, m[8..]);
      assert e[..whole][..8] == c.enc(key, m[..8]);
      assert e[..whole][8..] == EcbEnc(c, key, m[8..])[..whole - 8];
      assert c.Undone(key, m[..8]);
      assert m[..whole] == m[..8] + m[8..][..whole - 8];
    }
  }

  lemma {:induction false} HonestPayload(c: Cipher, p: seq<byte>)
    requires c.Sound() && |p| >= 0x40 && EncryptMode(p) <= 1
    ensures var payload := CertifyPayload(c, Sent(c, p, []));
            && |payload| >= 40 && payload[..8] == p[0x18..0x20]
            && payload[4..8] == p[0x1C..0x20] && payload[8..40] == p[0x20..0x40]
  {
    hide LE, EncryptMode, PerFrameKey, EcbEnc, EcbDec;
    SentKeepsHeader(c, p, []);
    var f := Sent(c, p, []);
    var payload := CertifyPayload(c, f);
    var m := p[0x18..];
    var whole := |m| / 8 * 8;
    if EncryptMode(p) == 1 {
      EcbOfPrefix(c, PerFrameKey(p), m);
      assert f[0x18..] == EcbEnc(c, PerFrameKey(p), m);
      assert payload == m[..whole];
    } else {
      assert payload == m;
    }
    assert payload[..8] == m[..8] && payload[4..8] == m[4..8] && payload[8..40] == m[8..40];
  }

  // An honest request, per-frame encrypted or not, takes the verified branch: the relay stores
  // k XOR random and answers with the random key and the client's session id.
  lemma {:induction false} HonestIsVerified(c: Cipher, w: WideCipher, p: seq<byte>, certifyKey: seq<byte>,
                         k: seq<byte>, world: World)
    requires c.Sound() && w.Sound() && world.Valid() && world.certifyKey == Some(certifyKey)
    requires Honest(w, p, certifyKey, k)
    ensures Decide(c, w, Sent(c, p, []), world)
         == Reply(Some(XorBytes(k, world.random)), world.random, p[0x18..0x20])
  {
    hide LE, PerFrameKey, Sent, EcbEnc, EcbDec, CertifyPayload, DecryptKey, EncryptKey, Giot, XorBytes;
    HonestPayload(c, p);
    KeyDecrypts(w, certifyKey, k);
    SentKeepsHeader(c, p, []);
  }

  // A request whose hash is not the hash of its key, or that the relay has no certify key for, is
  // not verified: the captured key is used, with a zero server key, else the upstream's answer is
  // forwarded, else the answer is sent without a stored key.
  lemma {:induction false} UnverifiedDecision(c: Cipher, w: WideCipher, p: seq<byte>, k: seq<byte>, world: World)
    requires c.Sound() && w.Sound() && world.Valid() && |p| >= 0x40 && |k| == 32
    requires !IsAckFlag(p) && EncryptMode(p) <= 1
    requires world.certifyKey.Some? ==>
               p[0x20..0x40] == EncryptKey(w, world.certifyKey.value, k) && U32(p, 0x1C) != Giot(k)
    ensures Decide(c, w, Sent(c, p, []), world)
         == if world.captured.Some? then Reply(world.captured, Zeros(32), p[0x18..0x20])
            else if world.upstream.Some? then Forward(world.upstream.value)
            else Reply(None, Zeros(32), p[0x18..0x20])
  {
    hide LE, PerFrameKey, Sent, EcbEnc, EcbDec, CertifyPayload, DecryptKey, EncryptKey, Giot, XorBytes;
    HonestPayload(c, p);
    if world.certifyKey.Some? { KeyDecrypts(w, world.certifyKey.value, k); }
    SentKeepsHeader(c, p, []);
  }

  // Bit 4 of byte 0x16 marks an ACK.
  lemma {:induction false} AckByte(data: seq<byte>)
    requires |data| >= CRYPTO_HDR
    ensures IsAckFlag(data) <==> (data[0x16] / 0x10) % 2 == 1
  {
    U32Bytes(data, 0x14);
    hide LE, U32;
    var low, mid, high := data[0x14] + 0x100 * (data[0x15] as int), data[0x16] as int, data[0x17] as int;
    assert U32(data, 0x14) == low + 0x1_0000 * mid + 0x100_0000 * high;
    assert U32(data, 0x14) / 0x10_0000 == mid / 0x10 + 0x10 * high;
  }

  lemma {:induction false} PayloadRoom(c: Cipher, data: seq<byte>)
    requires |data| >= CRYPTO_HDR
    ensures |CertifyPayload(c, data)| < 40 <==> |data| < 0x40
  {
    hide LE, EcbDec, EncryptMode, PerFrameKey;
  }

  // No answer goes out exactly to an ACK and to a request without room for the 32-byte key.
  lemma {:induction false} NoAnswer(c: Cipher, w: WideCipher, data: seq<byte>, world: World)
    requires |data| >= CRYPTO_HDR && world.Valid()
    ensures Decide(c, w, data, world) == NoReply <==> (data[0x16] / 0x10) % 2 == 1 || |data| < 0x40
  {
    hide CertifyPayload, IsAckFlag, VerifiedKey;
    AckByte(data);
    PayloadRoom(c, data);
  }

  // Both ends hold the same key.  Whenever the relay stores a key with its answer, the client
  // that opens the answer computes exactly that key: from its own key k if the request was
  // verified, from the captured key otherwise.
  lemma {:induction false} KeyAgreement(c: Cipher, w: WideCipher, data: seq<byte>, world: World,
                     id: block8, sqnum: nat, nonce: nat)
    requires c.Sound() && world.Valid() && |data| >= CRYPTO_HDR
    requires Decide(c, w, data, world).Reply? && Decide(c, w, data, world).stored.Some?
    ensures var d := Decide(c, w, data, world);
            var r := PerFrameSeal(c, CertifyResp(id, sqnum, RequestSqnum(c, data, []), nonce,
                                                 d.sessionId, d.serverKey));
            var k := VerifiedKey(w, CertifyPayload(c, data), world);
            var clientKey := if k.Some? then k.value else world.captured.value;
            && |ReadServerKey(c, r)| == 32
            && XorBytes(clientKey, ReadServerKey(c, r)) == d.stored.value
            && ReadSessionId(c, r) == d.sessionId
            && ReadAnsweredSqnum(c, r) == RequestSqnum(c, data, [])
  {
    hide CertifyPayload, VerifiedKey, IsAckFlag, PerFrameSeal, RequestSqnum, CertifyResp, XorBytes,
         ReadServerKey, ReadSessionId, ReadAnsweredSqnum;
    var d := Decide(c, w, data, world);
    RequestSqnumBound(c, data, []);
    ResponseReadBack(c, id, sqnum, RequestSqnum(c, data, []), nonce, d.sessionId, d.serverKey);
    if d.serverKey == Zeros(32) && world.captured.Some? { XorBytesZero(world.captured.value); }
  }

  // The exchange from end to end: the client sends its key k, opens the answer, and what it then
  // computes is the key that the relay stored for it.
  lemma {:induction false} HonestKeyAgreement(c: Cipher, w: WideCipher, p: seq<byte>, certifyKey: seq<byte>,
                           k: seq<byte>, world: World, id: block8, sqnum: nat, nonce: nat)
    requires c.Sound() && w.Sound() && world.Valid() && world.certifyKey == Some(certifyKey)
    requires Honest(w, p, certifyKey, k)
    ensures var request := Sent(c, p, []);
            var d := Decide(c, w, request, world);
            && d.Reply? && d.stored.Some?
            && var r := PerFrameSeal(c, CertifyResp(id, sqnum, RequestSqnum(c, request, []), nonce,
                                                    d.sessionId, d.serverKey));
            && |ReadServerKey(c, r)| == 32 && XorBytes(k, ReadServerKey(c, r)) == d.stored.value
            && ReadSessionId(c, r) == p[0x18..0x20] && ReadAnsweredSqnum(c, r) == U32(p, 0x0C)
  {
    hide Decide, Honest, PerFrameSeal, RequestSqnum, CertifyResp, XorBytes, U32, Sent,
         ReadServerKey, ReadSessionId, ReadAnsweredSqnum;
    HonestIsVerified(c, w, p, certifyKey, k, world);
    HonestSqnum(c, w, p, certifyKey, k);
    RequestSqnumBound(c, Sent(c, p, []), []);
    ResponseReadBack(c, id, sqnum, RequestSqnum(c, Sent(c, p, []), []), nonce, p[0x18..0x20], world.random);
  }

  lemma {:induction false} HonestSqnum(c: Cipher, w: WideCipher, p: seq<byte>, certifyKey: seq<byte>, k: seq<byte>)
    requires c.Sound() && Honest(w, p, certifyKey, k)
    ensures |p| >= 0x40 && RequestSqnum(c, Sent(c, p, []), []) == U32(p, 0x0C)
  {
    hide LE, EncryptMode, PerFrameKey;
    SentKeepsHeader(c, p, []);
    if EncryptMode(p) == 1 {
      var key := PerFrameKey(p);
      assert c.Undone(key, p[0x0C..0x14]);
      assert EncryptPayload(c, key, p)[0x0C..0x14] == p[0x0C..0x14];
      assert Sent(c, p, [])[0x0C..0x14] == c.enc(key, p[0x0C..0x14]);
      assert p[0x0C..0x14][..4] == p[0x0C..0x10];
    }
  }
}
