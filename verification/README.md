# GUTES relay: a verified model

The repository is a local stand-in for a proprietary peer-to-peer signalling relay (GUTES) that
lets a doorbell camera and its bridge find each other without the vendor's cloud, with a few
capture tools beside it. This project models the parts of it in which something can go subtly
wrong, and proves what they promise. `dafny verify dfyconfig.toml` checks everything.

The modules, from the bottom up:

- **Cipher.** `Bits`, `Bytes` and `Words` give machine words as naturals modulo a power of two,
  little-endian packing and byte buffers. `Rc5` and `KeySchedule` are the cipher as functions;
  `Rc5Cipher.RC5` is the class with its in-place loops, proved to compute those functions.
  `KnownAnswer` derives a test vector of RFC 2040 from them, and `KeySchedule` the magic constants
  from e and the golden ratio, so that the functions are the cipher's and not just invertible.
- **Frames.** `FrameCrypto` holds the regions of a frame that get rewritten (id, sequence number
  with checksum, payload) and their inverses, `Chkval` the XOR checksum, `Layout` the way a builder
  fills a zeroed buffer. `SessionFrames` has the CALLING exchange, `Certify` the key exchange,
  `RelayFrames` the keepalives, the header parser and the plain success responses. Builders fill an
  array and encrypt overlapping slices of it in place, in the order of the source.
- **Stream framing.** `StreamFraming` is the proxy's resynchronising frame extractor.
- **The relay as a step machine.** Handlers interleave only where they await, so each await-free
  stretch is one step of a machine and every property is proved for all runs: `MtpPairing` (pairing
  of TCP connections), `CallingQueue` (calls that wait for the doorbell), `RelayRuns` (sequence
  prediction and keepalive misses). Each has a class with the source's own fields whose methods are
  proved to take exactly the machine's steps.
- **Small structures.** `SnifferRing` (single-producer, single-consumer ring), `TrackTable` (bounded
  table), `BroadcastList` (intrusive circular list), `Dns` (names with a compression pointer) and
  `IpChecksum` (a checksum with only two folds).

Two layers are written over a record of operations rather than over one concrete instance. RC5 is
written over any sound word arithmetic (`Words.WordOps`), and `Words.SourceWordsSound` shows that
the program's 32-bit and 64-bit arithmetic is sound. Frames are written over any block cipher that
decryption undoes (`FrameCrypto.Cipher`, `Certify.WideCipher`); `FrameCrypto.Rc5Cipher8Sound` and
`Certify.Rc5Cipher16Sound` show that RC5 with 6 rounds on 8-byte and 16-byte blocks is one. Every
theorem about frames therefore holds for the program's cipher.

The clock, random bytes, send outcomes, environment settings, the captured session key, the answer
of the upstream server and the MD5 hash in `make_server_chkval` are arbitrary inputs.

## Where the code falls short of what one might expect

- A connection that waits in an MTP queue and is taken by an arriving partner is closed at its next
  wake-up instead of relaying, because the pair is not recorded in `mtp_pairs`; and a recorded pair is
  lost to the next one that is recorded under the same link id, which pairing does not advance.
  `MtpPairing.FateOfTaken` has the exact condition, `StrandedRun` and `OverwrittenPair` have runs in
  which it happens. The comment at src/relay/mtp_relay.py:200 takes removal from the queue to mean that
  the pair is found.
- The proxy's framing can depend on how the stream is cut into chunks
  (`StreamFraming.GarbageDependsOnChunks`). It does not exactly for the streams in which, wherever the
  parser stands on a byte that starts no frame, the next protocol byte is among the next 63 or no frame
  follows at all (`StreamFraming.ChunkIndependence`). Streams of valid frames are of that kind; and any
  stream at all is parsed fully when it comes in chunks of at most 37 bytes. `DropIsSafeIff` and
  `DropInARunIsSafeIff` say exactly when dropping a whole buffer loses nothing.
- Two folds of the checksum sum are not enough from 65539 words on (`IpChecksum.LongHeaderFails`);
  `IpChecksum.RightExactlyWhen` gives the exact condition. IPv4 headers have 10 words.
- The per-frame key has 8 bytes in the code and 7 in its comment (src/relay/rc5.py:189-192); the
  schedule is the same (`FrameCrypto.SevenByteKey`).
- A queued call waits 90 seconds (src/relay/calling.py:69), not the 30 that src/relay/models.py
  has as its default.
- A queued call whose doorbell is known but unreachable is dropped without a trace
  (src/relay/calling.py:265-278; `CallingQueue.FateOfCall`).

## Model

| member | source | states |
|---|---|---|
| `Words.SourceWordsSound` | src/relay/rc5.py:19-41 | for both word sizes, subtraction undoes addition and the left and right rotations undo each other, by any amount, and every result is a word again |
| `Bits.RotationsUndo` | src/relay/rc5.py:19-41 | each rotation gives back what the other one was given |
| `Bits.RotLMeans` | src/relay/rc5.py:19-41 | a left rotation moves the low part of the word up and its high part round to the bottom |
| `Bits.AmountIsRemainder` | src/relay/rc5.py:111-119 | rotation amounts count modulo the word size |
| `Rc5.UnroundUndoes` | src/relay/rc5.py:135-156 | a decryption round undoes an encryption round |
| `Rc5.BackwardUndoes` | src/relay/rc5.py:121-163 | the descending round loop undoes the ascending one, for every number of rounds and every table S |
| `Rc5.ForwardUndoes` | src/relay/rc5.py:121-163 | and the other way round |
| `Rc5.BlockRoundTrip` | src/relay/rc5.py:121-163 | on bytes, decrypting an encrypted block and encrypting a decrypted block give the block back |
| `Rc5.EveryWordCounts` | src/relay/rc5.py:121-141 | two tables S that differ in one word encrypt every block differently, and the first n rounds use exactly the first 2(n+1) words |
| `Rc5.EcbRoundTrip` | src/relay/rc5.py:165-179 | the same for every message of whole blocks |
| `Rc5.EcbJoins` | src/relay/rc5.py:165-179 | two messages one after the other are encrypted and decrypted each on its own |
| `Rc5.EcbOfBlock` | src/relay/rc5.py:165-179 | a message of one block is just the encrypted block |
| `KnownAnswer.Rfc2040Vector` | src/relay/rc5.py:44-141 | the answer of RFC 2040, section 9, for one round, the key 11 and a block of zeros: constants, schedule, rounds and byte order together |
| `KnownAnswer.HashOfOneByte` | src/relay/session_crypto.py:94-104 | the key hash of no byte and of one byte, as numbers |
| `Rc5Cipher.RC5.constructor` | src/relay/rc5.py:55-66 | the object computes with sound arithmetic of the word size that fits its block size |
| `Rc5Cipher.RC5.SetKey` | src/relay/rc5.py:68-109 | the three in-place loops of setkey leave the table that the key expansion defines |
| `Rc5Cipher.RC5.EncryptBlock` | src/relay/rc5.py:121-141 | the loop over A and B is the encryption that `BlockRoundTrip` is about |
| `Rc5Cipher.RC5.DecryptBlock` | src/relay/rc5.py:143-163 | the same for decryption |
| `Rc5Cipher.RC5.Encrypt` | src/relay/rc5.py:165-171 | the ECB loop is the encryption that `EcbRoundTrip` is about |
| `Rc5Cipher.RC5.Decrypt` | src/relay/rc5.py:173-179 | the same for decryption |
| `Rc5Cipher.LoadKeyWords` | src/relay/rc5.py:81-89 | the descending byte loop with its shifts and masks gives the little-endian words of the key |
| `Rc5Cipher.FillByte` | src/relay/rc5.py:88-89 | shifting a byte into its word loses no bit and leaves the other words alone |
| `Rc5Cipher.FillTable` | src/relay/rc5.py:91-96 | the loop fills S with the arithmetic progression from P by Q, modulo the word size |
| `Rc5Cipher.MixOnce` | src/relay/rc5.py:101-106 | one pass writes exactly the slots i of S and j of L, in place |
| `Rc5Cipher.MixKey` | src/relay/rc5.py:98-106 | the loop over S and L in place makes 3 * max(t, c) mixing steps |
| `KeySchedule.KeyBytesRecovered` | src/relay/rc5.py:81-89 | unpacking word q of L gives the q-th slice of the zero-padded key: no key byte is lost |
| `KeySchedule.EmptyKey` | src/relay/rc5.py:82-85 | the empty key is the key of one zero byte, and no other key is changed |
| `KeySchedule.PaddingKeepsSchedule` | src/relay/rc5.py:81-109 | zeros up to the next word boundary do not change S |
| `KeySchedule.MixSlots` | src/relay/rc5.py:101-106 | the loop's indices are those that the visit counts are about |
| `KeySchedule.MixedThreeTimes` | src/relay/rc5.py:99-106 | every slot of S and of L is mixed at least three times, and each slot of the longer table exactly three times |
| `KeySchedule.DifferentKeys` | src/relay/rc5.py:81-106 | two different keys of one length mix alike up to the first different word, which makes B different and then the next slot of S |
| `KeySchedule.KeyReachesTable` | src/relay/rc5.py:101-106 | the same for two word tables L |
| `KeySchedule.Constants32` | src/relay/rc5.py:44-47 | the 32-bit magic constants are odd and within 1 of (e - 2) and (phi - 1) times 2^32 |
| `KeySchedule.Constants64` | src/relay/rc5.py:44-47 | the same for 64 bits |
| `FrameCrypto.SevenByteKey` | src/relay/rc5.py:188-203 | the 8-byte per-frame key has the schedule of the 7 header bytes |
| `FrameCrypto.Rc5Cipher8Sound` | src/relay/rc5.py:121-163 | RC5 on 8-byte blocks with 6 rounds is a cipher as the frame theorems want it |
| `FrameCrypto.EcbUndone` | src/relay/frame_builder.py:461-465 | encrypting the whole blocks of a payload and leaving its tail is undone block by block |
| `FrameCrypto.EcbEncIsRc5` | src/relay/frame_builder.py:461-465 | that is the RC5 class's ECB on the whole blocks, followed by the untouched tail |
| `FrameCrypto.FirstBlock` | src/relay/session_crypto.py:188-201 | decrypting only the first block of an encrypted payload gives its first 8 plaintext bytes |
| `FrameCrypto.OpenUndoesSeal` | src/relay/frame_builder.py:457-478 | undoing id, sqnum/chkval and payload in reverse order gives back the plaintext frame, for every key and frame |
| `FrameCrypto.KeyBytesSurvive` | src/relay/rc5.py:188-203 | the header bytes that make the per-frame key, and the flags, survive the encryption |
| `FrameCrypto.IdRoundTrip` | src/relay/rc5.py:206-237 | id_decrypt undoes id_encrypt for all ids, sequence numbers and checksums |
| `FrameCrypto.MaskedBefore` | src/relay/rc5.py:206-223 | id_encrypt masks with sqnum and chkval before it encrypts |
| `FrameCrypto.MaskedAfter` | src/relay/frame_builder.py:471-478 | the ACK's id is encrypted first and masked with the encrypted numbers afterwards |
| `FrameCrypto.StaticKey` | src/relay/rc5.py:185-185 | the static key is the SDK's text, byte by byte |
| `FrameCrypto.PackedIds` | src/relay/frame_builder.py:40-46 | ids are packed in two's complement, low byte first |
| `FrameCrypto.U32Bytes` | src/relay/gutes_frame.py:121-123 | header words are little-endian |
| `FrameCrypto.FlagsRoundTrip` | src/relay/gutes_frame.py:127-136 | every flag, the nonce, the mode and the QoS are read from the bits that they are put at |
| `FrameCrypto.ModeByte` | src/relay/session_crypto.py:118-119 | the encryption mode is the two low bits of byte 0x16 |
| `FrameCrypto.UnpackPackQ` | src/relay/frame_builder.py:40-46 | the signed 64-bit id survives packing, negative ids included |
| `Chkval.Compute` | src/relay/frame_builder.py:49-67 | the dword loop is the XOR of the covered dwords |
| `Chkval.ComputeInline` | src/relay/frame_builder.py:642-651 | the inline loop over byte offsets gives the same value, for every frame length of at least 0x18 bytes |
| `Chkval.IgnoresStoredValue` | src/relay/frame_builder.py:49-67 | the value does not depend on bytes 0x10..0x13 and 0x17 |
| `Chkval.CoveredWordChange` | src/relay/frame_builder.py:49-67 | changing one covered dword changes the value by exactly the XOR of its old and new contribution |
| `Chkval.ZeroFrame` | src/relay/frame_builder.py:49-67 | a frame of zeros has checksum 0, which with the change of one dword gives the checksum of every frame |
| `Chkval.FlagsContribution` | src/relay/frame_builder.py:63-63 | of the flags, bytes 0x14, 0x15 and 0x16 contribute |
| `Layout.FieldAt` | src/relay/frame_builder.py:417-451 | every field that a builder packs can be read back from the finished buffer |
| `Layout.Fill` | src/relay/frame_builder.py:417-451 | filling a zeroed buffer field by field in place gives that frame |
| `SessionFrames.RequestSurvives` | src/relay/session_crypto.py:107-211 | link id and sequence number of a request are read back under every encryption mode in which it may be sent; a session key is needed in mode 2 only |
| `SessionFrames.SentKeepsHeader` | src/relay/rc5.py:188-203 | mode and per-frame key of a request can be read off the frame as sent |
| `SessionFrames.PerFrameFallback` | src/relay/session_crypto.py:126-148 | without a session key, and in mode 3, a number that is encrypted per frame is read |
| `SessionFrames.Unreadable` | src/relay/session_crypto.py:115-211 | exactly when there is no link id to be read, and that a short frame has number 0 |
| `SessionFrames.FirstByIpIs` | src/relay/session_crypto.py:129-134 | the search by IP finds the first entry of that IP, if there is one |
| `SessionFrames.FallsBackToIp` | src/relay/frame_builder.py:381-391 | an address without a key of its own gets the first key of its IP, or none |
| `SessionFrames.ChkvalStored` | src/relay/frame_builder.py:453-455 | a checksum stored in its own frame is the checksum of the frame that holds it |
| `SessionFrames.SealInPlace` | src/relay/frame_builder.py:457-478 | the three overlapping slice encryptions of one buffer make the frame that `OpenUndoesSeal` opens |
| `SessionFrames.SealedRegions` | src/relay/frame_builder.py:457-478 | what each region of the sealed frame is: payload and numbers under the session key, the id masked with the encrypted numbers, the rest in the clear |
| `SessionFrames.BuildCallingAck` | src/relay/frame_builder.py:386-482 | the builder returns None without a session key, else the sealed ACK with the request's own sequence number |
| `SessionFrames.AckContents` | src/relay/frame_builder.py:410-455 | every byte of the plaintext ACK: type, length, id, request number, a valid checksum, flags, result, and the doorbell's address and port 51850 |
| `SessionFrames.AckIsUndone` | src/relay/frame_builder.py:410-482 | a requester that opens the ACK finds the plaintext, a checksum that is right for it, and the relay's own reader finds the sequence number in the sealed frame |
| `SessionFrames.AckAnswersRequest` | src/relay/frame_builder.py:410-482 | whatever mode the request was sent in, the opened ACK carries the request's plaintext sequence number |
| `SessionFrames.Counters.NextSqnum` | src/relay/frame_builder.py:27-31 | hands out the counter and advances it modulo 2^32 |
| `SessionFrames.BuildMtpRes` | src/relay/frame_builder.py:514-599 | the response carries the caller's link id, or a fresh one from the counter exactly when it cannot be read; None where that one does not fit, both counters having advanced |
| `SessionFrames.LinkIdSurvives` | src/relay/frame_builder.py:514-599 | in every encryption mode, without a session key too where none is needed, the response carries the caller's plaintext link id at 0x1C and the checksum of the frame as sent |
| `SessionFrames.MtpResContents` | src/relay/frame_builder.py:529-592 | every byte of the response but link id and checksum: type, length, id, number, relay flag, the relay's own address as calling peer, the doorbell's LAN address and port as called peer |
| `Certify.Rc5Cipher16Sound` | src/relay/session_crypto.py:63-71 | RC5 on 16-byte blocks with 6 rounds is a cipher as the exchange wants it |
| `Certify.KeyDecrypts` | src/relay/session_crypto.py:63-71 | the two-block decryption gives back the client's 32-byte key |
| `Certify.TwoBlocksAreEcb` | src/relay/session_crypto.py:63-71 | the decryption is the RC5 class's ECB with 16-byte blocks and 6 rounds |
| `Certify.GiotHash` | src/relay/session_crypto.py:94-104 | the accumulating loop computes the 32-bit hash that client and relay compare |
| `Certify.PerFrameOpenUndoes` | src/relay/gutes_relay.py:687-696 | a client that derives the key from the received header undoes both encryption steps |
| `Certify.PerFrameRegions` | src/relay/gutes_relay.py:687-696 | what each region of the response is: payload and numbers under the per-frame key, the rest in the clear |
| `Certify.CertifyContents` | src/relay/gutes_relay.py:661-696 | every byte of the plaintext response, and that the received header reads as mode 1, response and no ACK before anything is decrypted |
| `Certify.PerFrameSealInPlace` | src/relay/gutes_relay.py:687-696 | the two slice encryptions of one buffer make the frame that the client opens |
| `Certify.KeyStore.Handle` | src/relay/gutes_relay.py:576-699 | which of the branches is taken, what every key table, the doorbell's port and the certified clients are afterwards, and the encrypted answer |
| `Certify.KeyStore.MarkCertified` | src/relay/gutes_relay.py:650-659 | the doorbell's source port and the certified flag, for an answered request only |
| `Certify.HonestIsVerified` | src/relay/gutes_relay.py:594-630 | an honest request, per-frame encrypted or not, takes the verified branch and stores k XOR the random key |
| `Certify.UnverifiedDecision` | src/relay/gutes_relay.py:609-648 | a request whose hash is not its key's, or for which there is no certify key: the captured key with a zero server key, else the upstream's answer, else an answer without a stored key |
| `Certify.NoAnswer` | src/relay/gutes_relay.py:588-607 | no answer goes out exactly to an ACK and to a request without room for the key |
| `Certify.KeyAgreement` | src/relay/gutes_relay.py:624-699 | whenever the relay stores a key, the client that opens the answer computes that key, from its own key or from the captured one |
| `Certify.HonestKeyAgreement` | src/relay/gutes_relay.py:576-699 | from an honest client's request to the opened answer: both ends hold the same key, the session id comes back, and the answer names the request's plaintext sequence number |
| `Certify.GetAfterSet` | src/relay/gutes_relay.py:624-640 | storing a key for one address leaves the other addresses' keys as they were |
| `Certify.StoredIsFound` | src/relay/frame_builder.py:382-388 | the key that CERTIFY stored for an address is the one that a CALLING from it finds, whatever other ports of the IP hold |
| `Certify.ResponseIds` | src/relay/frame_builder.py:422-432 | a response carries the session id that CERTIFY stored, or the relay's own id |
| `RelayFrames.ParserDecodesTermId` | src/relay/gutes_frame.py:138-145 | the frame parser and the relay decode the same id from every frame, and none from a frame without a full header |
| `RelayFrames.MaskedFrameParses` | src/relay/frame_builder.py:672-692 | every field of a header with a masked id is recovered, the signed id among them, and the rest is zero |
| `RelayFrames.BuildKeepalive` | src/relay/frame_builder.py:656-692 | the builder makes the masked frame and takes one sequence number |
| `RelayFrames.BuildKeepaliveAck` | src/relay/frame_builder.py:695-727 | echoes the request's protocol and sequence number; None for a frame without a full header |
| `RelayFrames.KeepaliveParses` | src/relay/gutes_frame.py:98-145 | the parser reads out of a KEEPALIVE exactly what went in: id, numbers, nonce and every flag |
| `RelayFrames.KeepaliveAckParses` | src/relay/gutes_frame.py:98-145 | the same for a KEEPALIVE_ACK and the request it answers |
| `RelayFrames.MtpResParses` | src/relay/gutes_frame.py:98-136 | the parser reads an MTP_RES_RESP as it was built, checksum, flags2 and ack_result included |
| `RelayFrames.BuildSuccess` | src/relay/frame_builder.py:291-366 | both success responses are one frame with their own type |
| `RelayFrames.SuccessAnswers` | src/relay/frame_builder.py:291-366 | every byte of the response: type, length, id, number, flags, the predicted sequence number modulo 2^32, and zeros, which read as success |
| `StreamFraming.ReadFrameAgrees` | src/relay/gutes_frame.py:186-215 | read_frame_from_stream finds a frame exactly when the proxy's loop takes one, of the same length |
| `StreamFraming.TakesWellFormed` | tools/gutes_proxy.py:135-165 | the loop takes exactly the well-formed frames: protocol 0x7F, 0x7E or 0x70, their own little-endian length, 28 to 10240 bytes |
| `StreamFraming.RunConserves` | tools/gutes_proxy.py:122-185 | on arbitrary bytes, emitted and skipped segments and the rest make up the bytes received, and the rest stays below 0x2800 bytes |
| `StreamFraming.DrainConserves` | tools/gutes_proxy.py:134-165 | one drain of the buffer only cuts it into pieces |
| `StreamFraming.RunKeepsReference` | tools/gutes_proxy.py:135-165 | while no resynchronisation loses a protocol byte, the loop emits the frames of a byte-by-byte parser of the whole stream |
| `StreamFraming.SmallChunksParseAll` | tools/gutes_proxy.py:135-165 | chunks of at most 37 bytes always give the frames of the byte-by-byte parser, whatever the bytes |
| `StreamFraming.ChunkIndependence` | tools/gutes_proxy.py:122-185 | every cutting of a stream into chunks emits the frames of the byte-by-byte parser if and only if the stream is exact: behind garbage the next protocol byte is in reach or no frame follows |
| `StreamFraming.ExactRun` | tools/gutes_proxy.py:122-185 | an exact stream gives those frames from any waiting buffer |
| `StreamFraming.Mislead` | tools/gutes_proxy.py:122-185 | for any other stream there is a cutting that misses a frame or lets a hidden one out |
| `StreamFraming.ShortGapsAreExact` | tools/gutes_proxy.py:138-149 | streams on which no resynchronisation drops a protocol byte are exact |
| `StreamFraming.ValidStream` | tools/gutes_proxy.py:122-185 | streams of well-formed frames are exact and parse to those frames |
| `StreamFraming.ValidFramesAnyChunks` | tools/gutes_proxy.py:122-185 | every cutting of a stream of well-formed frames emits exactly those frames in order and ends with an empty buffer |
| `StreamFraming.GarbageDependsOnChunks` | tools/gutes_proxy.py:138-149 | with 64 bytes of garbage in front of a frame the cutting decides whether the frame is seen |
| `StreamFraming.DropIsSafeIff` | tools/gutes_proxy.py:138-149 | dropping a whole buffer loses nothing, whatever comes later, if and only if it holds no frame and the parser holds no beginning of one |
| `StreamFraming.DropInARunIsSafeIff` | tools/gutes_proxy.py:138-149 | in a run of the loop that drops a whole chunk and goes on in small chunks, every frame is seen if and only if the dropped bytes held none and no beginning of one |
| `StreamFraming.TallyCounts` | tools/gutes_proxy.py:171-175 | frames_seen of an id is the number of emitted frames with that id |
| `StreamFraming.Extractor.FindSkip` | tools/gutes_proxy.py:140-147 | finds the first protocol byte among the first 64, else takes the whole buffer |
| `StreamFraming.Extractor.Turn` | tools/gutes_proxy.py:135-177 | one turn of the inner loop on buffer, emitted frames and session table |
| `StreamFraming.Extractor.Feed` | tools/gutes_proxy.py:122-185 | one chunk: the loop terminates, and buffer, frames and table are those of the runs that the theorems are about |
| `MtpPairing.StepKeeps` | src/relay/mtp_relay.py:45-251 | every step of any handler keeps queues, pairs and books in order |
| `MtpPairing.PairingSafety` | src/relay/mtp_relay.py:45-251 | for every interleaving: queues are duplicate-free, disjoint and role-correct; no connection is in two pairs, or in a pair and pending or timed out; admitted = pending + 2 * pairs + timed out |
| `MtpPairing.OnePairEach` | src/relay/mtp_relay.py:164-251 | a connection enters at most one pair |
| `MtpPairing.PairSides` | src/relay/mtp_relay.py:164-251 | the two sides of a pair have the roles bridge and doorbell |
| `MtpPairing.RelayersHavePartners` | src/relay/mtp_relay.py:72-117 | in every run only connections that are in a pair are relayed |
| `MtpPairing.LongestWaitingIsTaken` | src/relay/mtp_relay.py:164-251 | a step makes at most one pair, of an arriving or waiting unpaired connection with the one that has waited longest on the other side |
| `MtpPairing.FateOfTaken` | src/relay/mtp_relay.py:200-214 | in every reachable state a waiting connection that is out of its queue has a partner, and its next wake-up relays if and only if the pair was recorded when it was made and no later pair was recorded under its link id |
| `MtpPairing.RunTable` | src/relay/mtp_relay.py:164-251 | in every run mtp_pairs holds what the recorded pairs, in their order, leave in it |
| `MtpPairing.TableHolds` | src/relay/mtp_relay.py:221-228 | that is, under each link id the last pair recorded under it |
| `MtpPairing.OverwrittenPair` | src/relay/mtp_relay.py:216-244 | a reachable state from which two pairs are recorded under one link id, and the first doorbell relays before the second pairing and is closed after it |
| `MtpPairing.KnownRolesStrandTheWaiter` | src/relay/mtp_relay.py:72-101 | if every role is known on arrival, one queue is always empty and every connection taken from a queue is closed at its next wake-up |
| `MtpPairing.StrandedRun` | src/relay/mtp_relay.py:72-101 | a run of three events with known roles after which the waiting bridge is closed while its doorbell relays |
| `MtpPairing.PollOutcome` | src/relay/mtp_relay.py:194-251 | when a wake-up relays, waits on or gives up |
| `MtpPairing.MtpRelay.TryPair` | src/relay/mtp_relay.py:164-192 | takes the head of the other queue, if there is one, and records nothing |
| `MtpPairing.MtpRelay.Find` | src/relay/mtp_relay.py:202-214 | the search of mtp_pairs finds a pair that has the connection on its own side if there is one |
| `MtpPairing.MtpRelay.Take` | src/relay/mtp_relay.py:216-244 | the waiting side takes the head of the other queue, leaves its own, and records the pair |
| `MtpPairing.MtpRelay.Drop` | src/relay/mtp_relay.py:246-251 | the clean-up after a timeout removes the connection from its own queue only |
| `MtpPairing.MtpRelay.Accept` | src/relay/mtp_relay.py:45-107 | the handler up to its first await, on the relay's fields, is the arrival step |
| `MtpPairing.MtpRelay.Identified` | src/relay/mtp_relay.py:109-117 | after the first frame the connection is queued without an attempt to pair it |
| `MtpPairing.MtpRelay.WakeUp` | src/relay/mtp_relay.py:199-251 | a turn of the waiting loop, on the relay's fields, is the poll step, and a pair it returns is recorded and has the connection |
| `CallingQueue.PassSorts` | src/relay/calling.py:243-286 | each delivery pass gives every queued call exactly one of delivered, expired, kept and dropped |
| `CallingQueue.PickKeepsOrder` | src/relay/calling.py:243-286 | the calls of each fate, the kept ones in particular, stay in their old order and none is missing |
| `CallingQueue.FateOfCall` | src/relay/calling.py:250-282 | for each fate, exactly which calls get it: late ones expire, and those whose known doorbell cannot be reached are dropped |
| `CallingQueue.DroppedCall` | src/relay/calling.py:262-282 | a call that is dropped and is in no queue and no list of deliveries afterwards |
| `CallingQueue.LedgerIsSafe` | src/relay/calling.py:243-286 | over any run no call is delivered twice, later than 90 seconds, or although it expired, was dropped or still waits; every call ever queued is in the books |
| `CallingQueue.TargetCases` | src/relay/calling.py:43-53 | a named destination wins, either end of the pair calls the other, and nobody else has a target |
| `CallingQueue.Calls.RouteTo` | src/relay/calling.py:261-282 | when a doorbell is unknown and when it cannot be reached |
| `CallingQueue.Calls.HandleCalling` | src/relay/calling.py:38-80 | a call is queued exactly when it is not handed to a target seen in the last 30 seconds |
| `CallingQueue.Calls.Attempt` | src/relay/calling.py:254-282 | the body of the loop gives a call the fate that the theorems are about |
| `CallingQueue.Calls.DeliverPending` | src/relay/calling.py:243-286 | the loop sends the delivered calls' data in order and leaves the kept calls in the queue |
| `CallingQueue.Calls.OnClientCertified` | src/relay/calling.py:312-341 | a certified doorbell triggers a pass, after which a call is left only where its send failed |
| `RelayRuns.MissesSinceReset` | src/relay/gutes_relay.py:721-760 | after every run with a sign of life, keepalive_misses is min(3, sends tried since the last one) |
| `RelayRuns.MissesAfterEveryRun` | src/relay/gutes_relay.py:721-760 | after every run of a fresh relay, keepalive_misses is min(3, sends tried since the last sign of life, or since the start) |
| `RelayRuns.AnswersCountInTwos` | src/relay/gutes_relay.py:363-412 | the requests of an address are answered with s+2, s+4, ... modulo 2^32, undisturbed by other addresses, although the stored counter is not masked |
| `RelayRuns.AnswersAfterCertify` | src/relay/gutes_relay.py:278-280 | the same counted from a CERTIFY anywhere in a run |
| `RelayRuns.Relay.HandleControl` | src/relay/gutes_relay.py:363-412 | the response frame that is sent carries the answered value in its chkval field |
| `RelayRuns.Relay.RegisterClient` | src/relay/gutes_relay.py:240-255 | a packet with a term id registers or updates that client and keeps its role |
| `RelayRuns.Relay.HandleKeepalive` | src/relay/gutes_relay.py:374-399 | which keepalives reset the misses, and which get an ACK |
| `RelayRuns.Relay.KeepaliveTick` | src/relay/gutes_relay.py:728-760 | a turn of the loop builds and sends a keepalive, counts a miss for a sent and for a failed one, up to 3, and takes a sequence number even where there is no socket |
| `RelayRuns.Relay.HandleCertify` | src/relay/gutes_relay.py:274-280 | a CERTIFY sets the base that the prediction counts from |
| `RelayRuns.Relay.HandleInitInfo` | src/relay/gutes_relay.py:327-347 | an INIT_INFO is answered with, and sets the base to, its own number or one more than the last |
| `RelayRuns.Relay.OnClientCertified` | src/relay/calling.py:312-341 | certifying a doorbell sets its term and address and resets the misses; any role is noted |
| `SnifferRing.StepKeeps` | tools/ble_sniffer/sniffer_802154.h:169-199 | every single store or load of the handler and the main loop keeps the ring in order |
| `SnifferRing.HeldReadsBack` | tools/ble_sniffer/sniffer_802154.h:185-192 | a slot with all of a frame's stores in it reads back as that frame, whatever older bytes lie behind |
| `SnifferRing.RingIsFifo` | tools/ble_sniffer/sniffer_802154.h:656-668 | for every interleaving: frames logged are the accepted ones in order, up to 31 queued and one in hand; received = accepted + dropped (+ the one being stored); the handler is never in the slot being copied |
| `SnifferRing.DroppedIffFull` | tools/ble_sniffer/sniffer_802154.h:169-183 | a frame of 1 to 127 bytes is dropped exactly when 31 frames wait, and any other length is ignored |
| `SnifferRing.NeverStuck` | tools/ble_sniffer/sniffer_802154.h:169-199 | neither side is stuck in the middle of its work |
| `SnifferRing.Sniffer.ReceiveDone` | tools/ble_sniffer/sniffer_802154.h:169-186 | the handler's decision on the global indices is the machine's |
| `SnifferRing.Sniffer.StoreCell` | tools/ble_sniffer/sniffer_802154.h:185-191 | one store of the handler, into its own slot only |
| `SnifferRing.Sniffer.AdvanceHead` | tools/ble_sniffer/sniffer_802154.h:193-194 | advancing head makes the stored frame the newest pending one |
| `SnifferRing.Sniffer.CheckQueue` | tools/ble_sniffer/sniffer_802154.h:233-235 | the queue looks empty exactly when no accepted frame is pending |
| `SnifferRing.Sniffer.CopyCell` | tools/ble_sniffer/sniffer_802154.h:658-663 | one cell of the copy |
| `SnifferRing.Sniffer.AdvanceTail` | tools/ble_sniffer/sniffer_802154.h:665-665 | advancing tail takes the oldest pending frame, the one that was copied, out of the queue |
| `SnifferRing.Sniffer.ResetStatistics` | tools/ble_sniffer/sniffer_802154.h:560-569 | resetting the counter of drops leaves queue and books alone |
| `SnifferRing.Sniffer.LogFrame` | tools/ble_sniffer/sniffer_802154.h:656-668 | what is logged is the oldest accepted frame not yet logged |
| `TrackTable.TableAgreesWithHistory` | tools/ble_sniffer/sniffer_802154.h:393-419 | after any sightings the table lists the first 128 different addresses in order of first sighting, each with its number of sightings (modulo 2^32), its first, last and strongest one |
| `TrackTable.KeysAreSighted` | tools/ble_sniffer/sniffer_802154.h:393-407 | the listed addresses are those that have been sighted |
| `TrackTable.Tracker.TrackAddress` | tools/ble_sniffer/sniffer_802154.h:393-419 | the search loop and the in-place update keep the array the table of the history |
| `TrackTable.Tracker.Reset` | tools/ble_sniffer/sniffer_802154.h:560-569 | a reset starts a new, empty history |
| `BroadcastList.FirstMatchIsFirst` | src/bridge/broadcast.cpp:62-80 | the answer of a scan is the first entry with a nonzero address and a matching id, and there is none only if none matches |
| `BroadcastList.MatchAfterAppend` | src/bridge/broadcast.cpp:62-80 | an appended entry never hides an earlier match and is found if it is the only one |
| `BroadcastList.Manager.Inject` | src/bridge/broadcast.cpp:99-133 | tail insertion keeps the list circular and doubly linked, the empty list included, and appends the entry |
| `BroadcastList.Manager.Scan` | src/bridge/broadcast.cpp:62-80 | the traversal terminates with the first match |
| `BroadcastList.Manager.InjectThenScan` | src/bridge/broadcast.cpp:111-133 | after injecting a nonzero address, a search for that id succeeds |
| `Dns.ParseDnsName` | src/network/network_setup.py:266-292 | the loop with its recursion at pointers is the parser that the theorems are about |
| `Dns.ParseReadsWire` | src/network/network_setup.py:266-292 | an uncompressed name parses to its labels joined by dots and ends after its final zero, anywhere in any message |
| `Dns.ScanAgreesWithParse` | src/network/network_setup.py:308-314 | on every uncompressed name, well-formed or not, scan and parser find the same end, off by the final zero if that is missing |
| `Dns.BuildDnsResponse` | src/network/network_setup.py:295-324 | header, question as scanned, pointer answer; a short query comes back unchanged |
| `Dns.AnswerAgreesWithQuestion` | src/network/network_setup.py:295-324 | parsing the question, the copied question and the answer's pointer all give the same name; scan and parser agree about its end; transaction id and address are in place |
| `Dns.AnswerFields` | src/network/network_setup.py:295-324 | header and answer in the terms of RFC 1035, sections 4.1.1 and 4.1.3: a response without error, one question, one answer of type A and class IN, 60 seconds, 4 bytes |
| `Dns.PointerParses` | src/network/network_setup.py:280-287 | a pointer stands for the name at the offset in its 14 low bits |
| `Dns.DottedName` | src/network/network_setup.py:292-292 | labels are joined by dots |
| `IpChecksum.Compute` | tools/gutes_capture.py:128-138 | the loop with its two folds, for even and odd lengths |
| `IpChecksum.OddLength` | tools/gutes_capture.py:131-132 | the last byte of an odd-length header counts as the high byte of a word |
| `IpChecksum.OnesSumIsRep` | tools/gutes_capture.py:133-135 | the end-around-carry sum of the words is the representative of their wide sum modulo 65535 |
| `IpChecksum.TwoFoldsAreEnough` | tools/gutes_capture.py:128-138 | for headers of up to 65538 words the result is the complement of the one's complement sum of RFC 1071, section 1 |
| `IpChecksum.RightExactlyWhen` | tools/gutes_capture.py:128-138 | for every wide sum: the result is right if and only if the second fold has no carry, or a multiple of 65535 as carry over a nonzero low half |
| `IpChecksum.LongHeaderFails` | tools/gutes_capture.py:128-138 | a header of 65539 words for which the result is wrong |
| `IpChecksum.StoredChecksumVerifies` | tools/gutes_capture.py:105-138 | recomputing with the checksum stored in its zero field gives 0 |
| `IpChecksum.BuildHeader` | tools/gutes_capture.py:101-117 | the assembled IPv4 header verifies to 0 and is version 4, 5 words long, TTL 64, UDP, with its total length and addresses; None where the length does not fit |

## Left out

- Sockets, asyncio transport, files, caches, environment lookups and logging: input and output.
- Mars proxying and upstream forwarding (src/relay/gutes_relay.py:420-574): network clients; only
  their answer appears, as an input of `Certify.Decide`.
- `build_ack`, `build_detect_resp`, `build_init_info_resp` and the server entry of `build_list_resp`:
  the first changes the length that feeds the per-frame key after deriving that key and is not called
  by the packet handler; the others would add more frames of the same kind.
- The payload decryption in `parse_frame` and `capture_session_key_from_response`: they decrypt from
  0x1C while the builders encrypt from 0x18, so they are no inverse of anything here.
- `_identify_role`, `_identify_role_from_frame`, `identify_device_role` and the destination in a
  CALLING payload: comparisons against configured addresses; their result is an input.
- The data relayed between two paired connections, and that both handlers of a recorded pair start a
  relay loop.
- RFC 1035 pointer cycles and names with several pointers: `parse_dns_name` follows them without a
  guard; `Dns.ParseLoop` has the interpreter's recursion limit as its depth argument, and the theorems
  are about uncompressed names and the one pointer that the response builds.
- `Certify.KeyStore.Handle`: does not model the role handling that the handler does on the way; that is
  `CallingQueue.Calls.OnClientCertified` and `RelayRuns.Relay.OnClientCertified`.
- `CallingQueue.Calls.OnClientCertified`: does not model the doorbell's address and the keepalive misses;
  those are in `RelayRuns.Relay.OnClientCertified`.
- `RelayRuns.Relay.RegisterClient`: does not model last_seen, the port and the frame count of a client and
  the map from addresses to terms, which none of the properties depends on.
- `StreamFraming.Extractor.Turn`: has one session table per extractor; in the proxy both directions and
  all connections share one. The counts of `TallyCounts` start from any table, so they hold for each
  extractor's share.
- `SessionFrames.BuildMtpRes`: takes session ids to have 8 bytes, which is all that CERTIFY stores.
- `RelayRuns.Relay.HandleControl`: takes the stored session id to have 8 bytes, as above.
- `MtpPairing.MtpRelay.WakeUp`: takes it that the 30 seconds are not over before the first sleep.
- `SnifferRing.RingIsFifo`: memory is sequentially consistent and each cell is read and written
  whole; the order of the compiler's and the hardware's accesses is not part of this model.
- `BroadcastList.Manager.Scan`: one locked traversal; `poll`'s repetition every half second, its
  timeout and what the vendor's code does to the list in between are not modelled.
- The MAC header parser, the PAN id table, the serial output and the other tools: they would add
  easier members of kinds that are here already.
