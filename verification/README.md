# Remote access platform: verified model

This project models the byte-level and state-machine core of the remote access platform and proves
properties of it. It covers the framing codec in C++ and Rust, the encryption layer, the client's
stream reassembly, the agent's packet handler and frame sender, the file transfer engine with its
SHA-256, the audit hash chain, the screen capture with its dirty-region detector and mirror shield,
the reconnect logic, and the STUN decoder. `dafny verify dfyconfig.toml` checks all of it.

## What is modelled

| Module | What it is |
|---|---|
| `Bytes`, `Wrappers` | bytes, fixed-width integers, little- and big-endian encodings, optional values |
| `ProtocolCodec`, `RustPacket` | the 28-byte packet header and payload, in both implementations |
| `ChaCha20`, `Mac`, `CryptoEngine` | the stream cipher, the tag, and authenticated encryption built from them |
| `PacketStream` | what a byte stream decodes to, whatever way it is cut into reads |
| `SessionClient`, `InputEvents`, `Agent`, `FrameSender` | the two programs' handlers as objects with in-place state |
| `AgentSession` | one viewer's connection on the agent: packets in, captured frames out, and the messages written |
| `EndToEnd`, `ScreenToViewer` | answers, frames and input events from one program to the other |
| `Sha256`, `Sha256Buffer`, `FileTransfer` | FIPS 180-4, the loops that compute it, and chunked file transfer |
| `AuditChain` | the append-only log, its verifier, and what a head hash commits to |
| `Pixels`, `DirtyRegion`, `MirrorShield`, `Capture` | frame geometry, frame differences, shielding, duplicate suppression |
| `Reconnect` | backoff and the user's disconnect |
| `Stun` | binding requests and the attribute walk |
| `ChaCha20Vectors`, `Sha256Vectors`, `WireVectors` | known answers: published vectors, and one message of the two programs byte for byte |

Code that updates buffers, fields or registers is modelled by methods and classes doing the same, each
proved equal to a function; the theorems are then about those functions. Some of the main results:

- `EndToEnd.LiveSession`: whatever requests, frames and close a connection goes through, and however its
  bytes are cut into reads, the client object does exactly what the agent's messages mean.
- `ScreenToViewer.ViewerShowsTheScreen`: a viewer that joins a capture of the display is shown a picture
  exactly when the screen was first captured, or changed, since it joined; the last one is then the
  current screen.
- `AuditChain.HeadCommits`: equal head hashes mean equal histories, or an exhibited collision.
- `FileTransfer.AssemblesIff`: over every run of chunk writes, onto any file or none, exactly when the source is rebuilt.
- `Mac.AccumulateIsPolynomial`: the closed form of the tag's wrapping accumulators.
- `SessionClient.EffectsAreSealed`, `Agent.ChangesAreSealed`: neither program does anything with a packet that
  is not an encryption under the key, and the lemmas beside them say what each encrypted packet does.
- `Sha256Vectors.AbcHex`, `ChaCha20Vectors.StandardBlock`, `WireVectors.AnswerOnWire`: the digest of "abc", the block
  of RFC 8439 and an encrypted answer with its header, as literal values.
- `AuditChain.EditIsReported`: a change to any one hashed field of a logged event is reported at that event.
- `Stun.AcceptedIsResponse`: every buffer the decoder accepts is a list of attributes, and it answers the first usable one.
- `Reconnect.DropRedials`: a drop nobody asked for is followed by a redial of the last host after the next delay.
- `Agent.InjectsExactlyWhenGranted`: exactly when an input event is injected.
- `SessionClient.DeniedNeverReconnects`: a refused viewer dials no more until the user connects again.

Several promises hold only under a condition, and the exact condition is proved in each case:

- An encoding round-trips its payload if and only if the payload is under 2^32 bytes
  (`ProtocolCodec.RoundTripIff`), and the two encoders agree under the same condition
  (`RustPacket.EncodersAgreeIff`).
- The client's 32-bit packet size is right if and only if the payload is under 2^32 - 28 bytes; at exactly
  2^32 - 28 its loop makes no progress (`PacketStream.TotalPacketSizeIff`).
- Garbage is skipped if and only if no magic number and version stand in it (`PacketStream.SkipsExactlyGarbage`).
- The agent keeps no leftover between reads, so it sees the packets sent if and only if every read is a
  whole number of packets (`Agent.AgentNeedsPacketBoundaries`).
- A client's authentication request with an empty password is never answered (`Agent.RequestAcceptedIff`),
  although the agent's comparison would accept one.
- Capture starts before anyone can connect, and an unchanged screen is sent once. So a viewer that joins
  later is shown the screen if and only if it has changed since (`ScreenToViewer.ViewerShowsTheScreen`,
  with a concrete run in `ScreenToViewer.StaticScreenIsNotShown`).
- Nothing stands between the fields an audit event hashes. So an edit of one field is always reported, up to a
  collision (`AuditChain.EditIsReported`), but bytes moved from one field to the next are not
  (`AuditChain.SlideIsNotReported`); in general, exactly the edits that change the hashed bytes, the stored hash or the
  link are (`AuditChain.TamperIsLocalised`).
- The last frame returned is not the current screen if and only if the display has shown this same
  non-empty screen since before a missed image, and it is not the test pattern (`Capture.ViewerAgreesIff`,
  with a concrete run in `Capture.FallbackLeavesPattern`).

### Conventions

- Native byte order is taken to be little-endian.
- A full MAC block's marker is `1ULL << 64`, undefined in C++; the model takes its value as the parameter
  `fullMarker`, and every result holds for all values, provided both ends of a connection use the same one.
- zlib is a pair of functions in `SessionClient.Platform`; frame results ask only that decompression undoes
  compression on the frames in question. Password acceptance is an arbitrary predicate on the decrypted bytes,
  and the audit log's hash an arbitrary function to 64-byte strings.
- Socket signals, timers and reads are steps in arbitrary order. A `connectToHost` that aborts a live
  socket is the run in which a disconnect comes first.
- Text stays as the bytes received: the UTF-8 decoding of clipboard and terminal text is not part of this model.

## Model

| member | source | states |
|---|---|---|
| ProtocolCodec.EncodeBuffer | libs/protocol/src/ProtocolCodec.cpp:9-51 | the pointer walk writes exactly the specified wire form into a fresh buffer |
| ProtocolCodec.DecodeBuffer | libs/protocol/src/ProtocolCodec.cpp:53-110 | the reading walk with its early returns computes the specified parse of any buffer |
| ProtocolCodec.DecodeIff | libs/protocol/src/ProtocolCodec.cpp:9-110 | a packet is decoded if and only if the data starts with that packet's own encoding |
| ProtocolCodec.RoundTripIff | libs/protocol/src/ProtocolCodec.cpp:9-110 | decoding an encoding gives the payload cut to 32 bits of length, so the payload itself exactly below 2^32 bytes |
| ProtocolCodec.DecodeStable | libs/protocol/src/ProtocolCodec.cpp:53-110 | every outcome but the two incomplete ones is unchanged by bytes that follow |
| ProtocolCodec.IncompletePayloadIff | libs/protocol/src/ProtocolCodec.cpp:92-94 | an incomplete payload is reported exactly for proper prefixes, header included, of some encoded packet |
| ProtocolCodec.PrefixFree | libs/protocol/src/ProtocolCodec.cpp:9-51 | at most one packet's encoding starts any given data |
| ProtocolCodec.HeaderOnWire | libs/protocol/src/ProtocolCodec.cpp:16-43 | the 28 header bytes: 30 50 41 52, 01 00, then type, number, time and size in their places, least significant byte first |
| ProtocolCodec.DecodeErrorsIff | libs/protocol/src/ProtocolCodec.cpp:53-94 | each refusal in bytes: under 28 bytes, other magic bytes, other version bytes, fewer bytes than the size says, in this order |
| ProtocolCodec.DecodesIff | libs/protocol/src/ProtocolCodec.cpp:53-110 | a packet is accepted exactly when the six sync bytes and the whole payload are there |
| Bytes.LEByte | libs/protocol/src/ProtocolCodec.cpp:19-43 | byte i of a copied integer weighs 256 to the i |
| Bytes.BEByte | services/audit/src/lib.rs:46 | byte i from the end of a big-endian integer weighs 256 to the i |
| RustPacket.TryFrom | services/shared/src/protocol.rs:27-48 | the conversion is the exact partial inverse of the discriminant, failing above 12 with the offending value |
| RustPacket.Discriminants | services/shared/src/protocol.rs:11-25 | the thirteen types are numbered 0 to 12 in order, with the C++ numbers where both sides know a type |
| RustPacket.EncodeVec | services/shared/src/protocol.rs:81-99 | the appends build the header and the whole payload |
| RustPacket.EncodersAgreeIff | services/shared/src/protocol.rs:81-99 | Rust and C++ encodings are identical exactly while the payload is under 2^32 bytes |
| RustPacket.DecodersAgree | services/shared/src/protocol.rs:101-160 | Rust accepts a packet exactly when C++ decodes the same packet and its type is 0 to 12 |
| RustPacket.ErrorsAgree | services/shared/src/protocol.rs:101-160 | the three header errors coincide on all inputs, a short payload differs only behind an unknown type, and the offending version or type is reported by value |
| RustPacket.CrossLanguageRoundTrip | services/shared/src/protocol.rs:1-160 | a frame written by either side reads back identically on the other |
| ChaCha20.QuarterRoundInvertible | libs/security/src/CryptoEngine.cpp:13-26 | the quarter round can be undone, so it loses no information |
| ChaCha20.RoundsInjective | libs/security/src/CryptoEngine.cpp:47-58 | any number of double rounds keeps different states different |
| ChaCha20.BlockInPlace | libs/security/src/CryptoEngine.cpp:29-62 | the in-place rounds on a sixteen-word array compute the block function |
| ChaCha20.XorInPlace | libs/security/src/CryptoEngine.cpp:64-85 | the 64-byte block loop equals XOR with the keystream, for every length |
| ChaCha20.XorStreamInvolution | libs/security/src/CryptoEngine.cpp:64-85 | applying the keystream twice restores the data |
| ChaCha20.CounterIsModular | libs/security/src/CryptoEngine.cpp:77 | the counter variable after k blocks holds the start plus k modulo 2^32 |
| ChaCha20Vectors.QuarterRoundVector | libs/security/src/CryptoEngine.cpp:13-26 | the quarter round gives the vector of section 2.1.1 of RFC 8439 |
| ChaCha20Vectors.PassIsDoubleRound | libs/security/src/CryptoEngine.cpp:47-58 | one pass is a quarter round on every column and then on every diagonal of the square |
| ChaCha20Vectors.StandardBlock | libs/security/src/CryptoEngine.cpp:47-61 | ten passes on the start state of section 2.3.2 of RFC 8439, and the words added back, give its block |
| ChaCha20Vectors.SourceBlock | libs/security/src/CryptoEngine.cpp:29-62 | the first block under the session key and nonce 1 with the source's own constants, word for word |
| ChaCha20Vectors.SourceKeystream | libs/security/src/CryptoEngine.cpp:71-81 | the keystream spells that block's words least significant byte first |
| Mac.TimesCommutes | libs/security/src/CryptoEngine.cpp:111-112 | the product of accumulator pairs commutes |
| Mac.TimesAssociates | libs/security/src/CryptoEngine.cpp:111-112 | the product of accumulator pairs associates |
| Mac.TimesDistributes | libs/security/src/CryptoEngine.cpp:108-112 | the product distributes over adding a block |
| Mac.AccumulateIsPolynomial | libs/security/src/CryptoEngine.cpp:94-117 | after n blocks the wrapping accumulators are, modulo 2^64, the sum of block i times r to the n-i+1 |
| Mac.LoadWord | libs/security/src/CryptoEngine.cpp:99-106 | OR-ing shifted bytes gives the little-endian number of the bytes |
| Mac.MultiplierIs | libs/security/src/CryptoEngine.cpp:89-90 | the multiplier is key bytes 0 to 3 and 4 to 7 with the two lowest and the four highest bits of each word cleared |
| Mac.BlocksAre | libs/security/src/CryptoEngine.cpp:97-109 | block i is bytes 16 i to 16 i + 7, and bytes 16 i + 8 to 16 i + 15 with the marker of its length |
| Mac.ComputeMac | libs/security/src/CryptoEngine.cpp:88-126 | the block loop computes the specified tag of any message, which TagIsPolynomial states in closed form |
| Mac.TagIsPolynomial | libs/security/src/CryptoEngine.cpp:88-126 | the tag in closed form from the message's and key's own bytes: the polynomial at the clamped words plus the next two words, each half modulo 2^64 |
| CryptoEngine.EncryptPayload | libs/security/src/CryptoEngine.cpp:170-185 | ciphertext then tag over it, or the exception for wrong key or nonce sizes |
| CryptoEngine.DecryptPayload | libs/security/src/CryptoEngine.cpp:187-214 | nothing for wrong sizes, short input or a wrong tag, else the plaintext |
| CryptoEngine.TagDifference | libs/security/src/CryptoEngine.cpp:201-208 | the OR-accumulated difference is zero exactly when the tags are equal |
| CryptoEngine.DecryptIff | libs/security/src/CryptoEngine.cpp:170-214 | decryption returns a plaintext if and only if the input is that plaintext's encryption |
| CryptoEngine.CipherByte | libs/security/src/CryptoEngine.cpp:64-85 | byte i is XORed with byte i mod 64 of the block with counter (1 + i/64) mod 2^32 |
| WireVectors.TagVector | libs/security/src/CryptoEngine.cpp:88-126 | the tag of the byte 5c under the session key, as sixteen literal bytes |
| WireVectors.AnswerOnWire | apps/agent/src/AgentPacketHandler.h:46-57 | the agent's success answer to request 1 as its 45 literal bytes, header, ciphertext and tag |
| PacketStream.DrainAppend | apps/client/src/SessionClient.cpp:409-434 | draining two stretches one after the other equals draining their concatenation |
| PacketStream.SegmentationIndependence | apps/client/src/SessionClient.cpp:408-575 | any cutting of the stream into reads gives the same packets and the same leftover |
| PacketStream.DrainEncoded | apps/client/src/SessionClient.cpp:416-575 | a stream that starts with encoded packets yields exactly those first |
| PacketStream.SkipsExactlyGarbage | apps/client/src/SessionClient.cpp:422-430 | the loop steps byte by byte over n bytes exactly when none of their positions matches magic plus version |
| PacketStream.Resynchronises | apps/client/src/SessionClient.cpp:416-434 | such garbage in front of encoded packets is skipped and exactly the packets come out |
| PacketStream.TotalPacketSizeIff | apps/client/src/SessionClient.cpp:434 | the 32-bit size is exact below 2^32 - 28 bytes of payload, and zero, so no progress, at that length |
| PacketStream.SmallIsDrainable | apps/client/src/SessionClient.cpp:416-434 | buffers under 2^32 bytes never meet a wrapped size |
| SessionClient.Client.OnReadyRead | apps/client/src/SessionClient.cpp:408-576 | one read event turns the buffer and the chunk into the effects of the drained packets, keeps the rest, and on a denial disconnects as the user would |
| SessionClient.Client.Dispatch | apps/client/src/SessionClient.cpp:436-572 | the branches by packet type produce the specified effect |
| SessionClient.EffectsAreSealed | apps/client/src/SessionClient.cpp:436-572 | any effect comes from a payload that is the encryption of some plaintext under the session key and the packet's number |
| SessionClient.AnswerArrives | apps/client/src/SessionClient.cpp:525-548 | an encrypted answer of type 14 grants access when its first byte is zero, denies it otherwise, and does nothing if empty |
| SessionClient.ChatArrives | apps/client/src/SessionClient.cpp:498-514 | an encrypted clipboard text that starts with CHAT: is a chat message with just that prefix removed |
| SessionClient.TextArrives | apps/client/src/SessionClient.cpp:498-524 | any other non-empty clipboard text is taken as it is |
| SessionClient.TerminalArrives | apps/client/src/SessionClient.cpp:549-564 | a non-empty encrypted terminal text is passed on as it is |
| SessionClient.FrameArrives | apps/client/src/SessionClient.cpp:447-493 | an encrypted frame is shown at its width and height with its decompressed pixels, or the fallback's raw bytes, or not at all |
| SessionClient.NoEffectArrives | apps/client/src/SessionClient.cpp:436-444 | a gated client shows no frame, and types other than 3, 6, 14 and 17 have no effect |
| SessionClient.Client.OnConnected | apps/client/src/SessionClient.cpp:296-339 | the session starts over, the reconnecting ends, and the encrypted authentication request is written as packet 1 |
| SessionClient.Client.OnDisconnected | apps/client/src/SessionClient.cpp:341-388 | the waiting bytes are dropped and the reconnect logic takes its step |
| SessionClient.Client.OnErrorOccurred | apps/client/src/SessionClient.cpp:390-400 | the waiting bytes are dropped and the reconnecting is left as it is |
| SessionClient.Client.SendInputEvent | apps/client/src/SessionClient.cpp:163-204 | when connected, exactly one encrypted event packet with the next sequence number is written |
| SessionClient.InputNumbers | apps/client/src/SessionClient.cpp:188-198 | event i goes out as type 4 under the i-th next number, its 24 bytes encrypted |
| SessionClient.InputNoncesDiffer | apps/client/src/SessionClient.cpp:188-190 | no two of up to 2^64 events share a nonce |
| SessionClient.NonceIff | apps/client/src/SessionClient.cpp:188-190 | the nonce spells the number, least significant byte first, then four zeros, so equal nonces mean equal numbers |
| SessionClient.RequestIsSealed | apps/client/src/SessionClient.cpp:310-339 | the request goes out as type 13 under number 1 with the password encrypted |
| SessionClient.EffectsAppend | apps/client/src/SessionClient.cpp:545-546 | effects of packets accumulate in order until a denied authentication ends the run |
| SessionClient.DeniedIff | apps/client/src/SessionClient.cpp:545-546 | the connection stays open exactly when no denial is among the effects |
| SessionClient.DeniedNeverReconnects | apps/client/src/SessionClient.cpp:537-546 | after a denied authentication nothing is dialled or scheduled, whatever the socket and timer do, until the user connects again |
| InputEvents.FillEvent | apps/client/src/SessionClient.cpp:180-186 | the field copies build the 24-byte plaintext |
| InputEvents.EventOnWire | apps/client/src/SessionClient.cpp:180-186 | one event as its 24 literal bytes, negative values in two's complement |
| InputEvents.EventRoundTrip | apps/agent/src/AgentPacketHandler.h:74-82 | the agent reads back every field the client sent except the modifiers |
| FrameSender.BuildFrame | apps/agent/src/main.cpp:140-166 | the callback builds the encrypted packet of a captured frame |
| FrameSender.FrameIsSealed | apps/agent/src/main.cpp:149-166 | the packet has type 3, the frame's number and its time in milliseconds, and encrypts width, height, raw size and compressed pixels |
| EndToEnd.FrameIsShown | apps/client/src/SessionClient.cpp:436-493 | decrypting, parsing and decompressing undo the sender's steps for one frame |
| EndToEnd.MessagesSurviveTheStream | apps/client/src/SessionClient.cpp:408-576 | however the stream of answers and pictures is cut, the client's effects are what they mean, in order up to a first refusal, with nothing left over |
| EndToEnd.ReadRun | apps/client/src/SessionClient.cpp:408-576 | a run of read events depends only on the concatenation of the reads |
| EndToEnd.Watch | apps/client/src/SessionClient.cpp:408-576 | the client object does exactly what the messages mean for every cutting of the stream, and is disconnected exactly by a refusal |
| EndToEnd.RunIsShown | apps/agent/src/main.cpp:97-186 | what a connection writes over any run of packets, frames and a close has its meaning at the viewer, for every cutting |
| EndToEnd.JoinerSeesTheRest | apps/agent/src/main.cpp:135-186 | a remote viewer whose request is accepted is told so and then shown every frame captured since, and none from before |
| EndToEnd.LiveSession | apps/agent/src/main.cpp:97-186 | connection object and client object together: the client's effects are the outcomes of the run's messages, and only a refusal disconnects it |
| EndToEnd.SendSession | apps/client/src/SessionClient.cpp:163-204 | a session writes the request and then the events' packets, numbered on from 1 |
| EndToEnd.AgentReadRun | apps/agent/src/main.cpp:97-123 | a run of agent reads handles exactly the packets each read holds whole |
| Agent.Connection.constructor | apps/agent/src/main.cpp:82-95 | a new connection is authenticated exactly when it is loopback |
| Agent.Connection.HandleClientPacket | apps/agent/src/AgentPacketHandler.h:18-139 | one packet changes the connection exactly as the specified step |
| Agent.Connection.OnReadyRead | apps/agent/src/main.cpp:101-122 | one read handles its leading whole packets and drops the rest |
| Agent.SmallReadIsDrainable | apps/agent/src/main.cpp:101-122 | a read under 2^32 bytes never meets a wrapped size |
| Agent.Broadcast | apps/agent/src/main.cpp:175-185 | every open authenticated client gets the bytes and no other does |
| AgentSession.Serve | apps/agent/src/main.cpp:97-186 | the packet handler and the frame callback over a whole run leave the connection as the specified run does |
| AgentSession.WrittenIsMessages | apps/agent/src/main.cpp:135-186 | over any run the bytes written are the encodings of its answers and pictures, one after the other |
| AgentSession.GrantedBeforePictures | apps/agent/src/main.cpp:175-185 | whenever a client is sent a picture, the last answer before it granted access |
| AgentSession.ClosedIsSilent | apps/agent/src/main.cpp:175-185 | once its socket has closed, a client is sent no picture |
| AgentSession.QuietMessages | apps/agent/src/main.cpp:175-185 | between requests a client with access is sent every frame captured, and one without is sent nothing |
| AgentSession.JoinerMessages | apps/agent/src/main.cpp:135-186 | a joining client is sent the answer first and then the frames captured since |
| Agent.AuthenticatedIff | apps/agent/src/AgentPacketHandler.h:23-62 | after any run the flag is set exactly when some request was accepted and none later rejected, or a loopback peer had none rejected |
| Agent.ChangesAreSealed | apps/agent/src/AgentPacketHandler.h:23-138 | any change comes from a payload that is the encryption of some plaintext under the session key and the packet's number |
| Agent.RequestIsSettled | apps/agent/src/AgentPacketHandler.h:23-62 | an encrypted password of type 13 sets the flag, is answered, and closes the connection if refused |
| Agent.ReplyIsSealed | apps/agent/src/AgentPacketHandler.h:46-57 | the answer has type 14 and the request's number, and encrypts one byte, 0 for success |
| Agent.EventIsInjected | apps/agent/src/AgentPacketHandler.h:63-91 | an encrypted event of type 4 is injected as the client sent it, modifiers apart, given access, a backend and a remote peer |
| Agent.ShortEventIsIgnored | apps/agent/src/AgentPacketHandler.h:72-75 | an encrypted event of fewer than 24 bytes changes nothing |
| Agent.TextAndActionAreTaken | apps/agent/src/AgentPacketHandler.h:92-138 | with access an encrypted text of type 6 is set as it is and one of type 15 acts by its first four bytes; other types do nothing |
| Agent.DisconnectsIff | apps/agent/src/AgentPacketHandler.h:59-61 | over any run the agent closes the connection exactly when it has rejected a request |
| Agent.InjectsExactlyWhenGranted | apps/agent/src/AgentPacketHandler.h:63-91 | a packet injects its event exactly when it carries one, the peer is not loopback and its history grants access |
| Agent.ActsExactlyWhenGranted | apps/agent/src/AgentPacketHandler.h:92-138 | clipboard text and session actions are taken exactly when a packet carries one and its history grants access, from loopback peers too |
| Agent.LoopbackNeverInjects | apps/agent/src/AgentPacketHandler.h:84-89 | no run of a loopback connection injects anything |
| Agent.AgentNeedsPacketBoundaries | apps/agent/src/main.cpp:101-122 | the reads yield the packets sent exactly when each is a whole number of packets |
| Agent.RequestAcceptedIff | apps/agent/src/AgentPacketHandler.h:28-41 | a request is accepted or rejected by its decrypted password, and an empty one is neither |
| Agent.ReplyTellsClient | apps/agent/src/AgentPacketHandler.h:46-57 | the client reads the reply as granted exactly when the agent accepted |
| Agent.InputIsDelivered | apps/agent/src/AgentPacketHandler.h:63-91 | after an accepted request, reads on packet boundaries inject exactly the events sent, in order, without modifiers |
| Sha256.PaddedLength | libs/file_transfer/src/FileTransferEngine.cpp:41-50 | the padded length is a multiple of 64 bytes |
| Sha256.ZeroBytesLeast | libs/file_transfer/src/FileTransferEngine.cpp:43-45 | the zeros added are the fewest that reach 56 modulo 64 |
| Sha256.PaddingInjective | libs/file_transfer/src/FileTransferEngine.cpp:41-50 | distinct messages have distinct paddings, for all lengths |
| Sha256.HexIff | libs/file_transfer/src/FileTransferEngine.cpp:95-99 | hex strings are equal exactly when the digests are |
| Sha256.HexDigitSpells | libs/file_transfer/src/FileTransferEngine.cpp:95-99 | digits below ten are 0 and up, the others a and up |
| Sha256Vectors.AbcHex | libs/file_transfer/src/FileTransferEngine.cpp:15-100 | the string for "abc" is the digest FIPS 180-4 gives, through every schedule word and round as literals |
| Sha256Vectors.BlockSpells | libs/file_transfer/src/FileTransferEngine.cpp:54-58 | the words of block i, written out big-endian, are its 64 bytes of the padded message |
| Sha256Vectors.HashValueFolds | libs/file_transfer/src/FileTransferEngine.cpp:52-93 | the hash value is carried through the blocks in order, each once |
| Sha256Buffer.BETruncates | libs/file_transfer/src/FileTransferEngine.cpp:47-50 | wrapping the bit length to 64 bits changes none of its eight bytes |
| Sha256Buffer.Pad | libs/file_transfer/src/FileTransferEngine.cpp:41-50 | the push loops build the padding of section 5.1.1 of FIPS 180-4 |
| Sha256Buffer.FillSchedule | libs/file_transfer/src/FileTransferEngine.cpp:53-62 | the array filled in place is the message schedule of section 6.2.2 of FIPS 180-4 |
| Sha256Buffer.RunRounds | libs/file_transfer/src/FileTransferEngine.cpp:64-83 | the shifted registers hold the working variables after 64 rounds |
| Sha256Buffer.ComputeSha256 | libs/file_transfer/src/FileTransferEngine.cpp:15-100 | the whole function returns the hex digest of the standard's definition for every input |
| FileTransfer.FileStore.PrepareFileChunks | libs/file_transfer/src/FileTransferEngine.cpp:145-178 | the chunks tile the file in order, all of the chunk size but the last, each with its digest and labels |
| FileTransfer.FileStore.WriteChunkToFile | libs/file_transfer/src/FileTransferEngine.cpp:180-197 | offset 0 truncates or creates, other offsets need the file and overwrite in place with zero-filled gaps |
| FileTransfer.FileStore.CalculateFileSha256 | libs/file_transfer/src/FileTransferEngine.cpp:106-113 | the digest of the file's bytes, empty for a missing file |
| FileTransfer.FileStore.VerifyIntegrity | libs/file_transfer/src/FileTransferEngine.cpp:199-203 | true exactly when the digest strings agree |
| FileTransfer.AssembleBuilds | libs/file_transfer/src/FileTransferEngine.cpp:180-197 | a file results exactly if there was one or chunk 0 was written, and is what it held at its last truncation with the chunks written since laid over it |
| FileTransfer.AssemblesIff | libs/file_transfer/src/FileTransferEngine.cpp:145-197 | over every run: the source is rebuilt exactly when there is a file, its base is no longer than the source, base or last chunk reach the end, and every chunk not written since is there already |
| FileTransfer.SinceIs | libs/file_transfer/src/FileTransferEngine.cpp:180-197 | without chunk 0 the base is the old file, with it the base is empty |
| FileTransfer.AnyOrderTransfer | libs/file_transfer/src/FileTransferEngine.cpp:145-203 | chunk 0 first and once, the others in any order with repeats, gives the source byte for byte |
| FileTransfer.Transfer | libs/file_transfer/src/FileTransferEngine.cpp:145-203 | prepare, write in such an order and verify: the copy is exact, the source untouched, the check succeeds |
| AuditChain.AuditLogService.LogEvent | services/audit/src/lib.rs:91-143 | the new event is numbered by position, linked to the head and sealed, and the chain grows by it alone |
| AuditChain.AuditLogService.VerifyIntegrity | services/audit/src/lib.rs:172-230 | valid exactly when every link and hash holds, else the first failing event is named |
| AuditChain.LoggedVerifies | services/audit/src/lib.rs:105-142 | every chain built by logging verifies and is numbered by position |
| AuditChain.HashedBytesDetermine | services/audit/src/lib.rs:34-56 | the hashed byte string determines the number and the previous hash |
| AuditChain.HeadCommits | services/audit/src/lib.rs:34-230 | two verifying chains with one head agree in length and on every event's hashed bytes, number and hashes, or a collision or genesis preimage is exhibited |
| AuditChain.NumberedHeadCommits | services/audit/src/lib.rs:105-142 | for chains numbered by position the genesis alternative cannot occur |
| AuditChain.TamperIsLocalised | services/audit/src/lib.rs:184-229 | a replaced event is reported at itself, else at the next if its hash changed, else not at all |
| AuditChain.EveryFieldIsHashed | services/audit/src/lib.rs:34-56 | editing one of the nine fields keeps the hashed bytes only by keeping the field |
| AuditChain.HashedOrder | services/audit/src/lib.rs:45-54 | the order of the fields on one-byte values, the number first and big-endian |
| AuditChain.EditIsReported | services/audit/src/lib.rs:184-229 | editing one hashed field of an event with its hash kept is reported at that event, or a collision is exhibited |
| AuditChain.SlideIsNotReported | services/audit/src/lib.rs:45-54 | moving a byte from the resource to the end of the actor is not reported, as nothing separates the fields |
| DirtyRegion.DetectDirtyRegion | libs/capture/src/DirtyRegionDetector.cpp:8-61 | the rectangle encloses every differing pixel and has one on each edge, and the null and empty cases are as coded |
| DirtyRegion.DirtyIffBytesDiffer | libs/capture/src/DirtyRegionDetector.cpp:25-60 | dirty exactly when some byte of the frames differs |
| DirtyRegion.RectIsLeast | libs/capture/src/DirtyRegionDetector.cpp:27-60 | no enclosing rectangle is smaller on any side |
| DirtyRegion.PatchGivesCurrent | libs/capture/src/DirtyRegionDetector.cpp:27-60 | copying the rectangle's pixels onto the old frame yields the new one |
| MirrorShield.ApplyMirrorShield | libs/capture/src/MirrorShield.cpp:8-44 | exactly the clipped window is painted and every other byte kept, or nothing is done |
| MirrorShield.ShieldBytes | libs/capture/src/MirrorShield.cpp:31-40 | the bytes painted by index: 1e 1e 2e, and ff after them with four bytes per pixel |
| Pixels.PixelByteAt | libs/capture/src/MirrorShield.cpp:27-36 | byte k of pixel (x, y) is byte (y width + x) bytes-per-pixel + k of the frame |
| MirrorShield.ShieldSevers | libs/capture/src/MirrorShield.cpp:13-43 | two shielded frames are equal, and the detector reports nothing, exactly when the frames differed in the window's painted bytes alone |
| Capture.X11Capture.Convert | libs/capture/src/LinuxX11Capture.cpp:146-162 | the nested loops fill the buffer with the converted screen |
| Capture.ConvertedIsScreen | libs/capture/src/LinuxX11Capture.cpp:150-162 | every pixel is red, green, blue and opaque from its source position |
| Capture.ConvertedBytes | libs/capture/src/LinuxX11Capture.cpp:146-162 | each output byte by its index in the image's data: pitch times row plus pixel size times column, third byte first, ff last |
| Capture.PatternBytes | libs/capture/src/LinuxX11Capture.cpp:190-193 | every pixel of the pattern is 2e 1e 1e ff in memory |
| Capture.ScreenIsUnique | libs/capture/src/LinuxX11Capture.cpp:150-162 | the pixel description fixes every byte of the buffer |
| Capture.X11Capture.CaptureSingleFrame | libs/capture/src/LinuxX11Capture.cpp:128-196 | one capture steps the state as specified and returns a frame exactly when the screen changed or none was kept |
| Capture.ViewerAgreesWithScreen | libs/capture/src/LinuxX11Capture.cpp:171-186 | over display captures the last frame returned always equals the current screen |
| Capture.ReturnsIff | libs/capture/src/LinuxX11Capture.cpp:171-195 | a call returns nothing exactly when it finds the display's last image again, and not an empty one |
| Capture.ReturnedSince | libs/capture/src/LinuxX11Capture.cpp:128-196 | what was returned stays, and more follows exactly when a later call does not repeat the display's last image |
| Capture.ViewerAgreesIff | libs/capture/src/LinuxX11Capture.cpp:142-195 | over all runs, the last frame returned differs from the screen exactly when the display has shown this non-empty screen since before a missed image and it is not the test pattern |
| Capture.FallbackLeavesPattern | libs/capture/src/LinuxX11Capture.cpp:190-195 | a missed image between two equal screens of any size leaves the viewer with the test pattern |
| Capture.NumbersIncrease | libs/capture/src/LinuxX11Capture.cpp:134 | the frame counter equals the number of calls modulo 2^64, so frame numbers increase by one |
| Capture.CaptureLoop | libs/capture/src/LinuxX11Capture.cpp:206-211 | the capture thread hands over exactly the frames the specified run returns, in order |
| ScreenToViewer.ViewerShowsTheRest | apps/agent/src/main.cpp:135-186 | over any capture run the joined viewer is shown the frames returned since, at least one exactly when a call since did not repeat the display's last image, the last being the last returned |
| ScreenToViewer.ViewerShowsTheScreen | apps/agent/src/main.cpp:135-186 | over display captures the joined viewer is shown a picture exactly when the screen was first captured or changed since it joined, and the last one is the current screen |
| ScreenToViewer.StaticScreenIsNotShown | libs/capture/src/LinuxX11Capture.cpp:171-186 | a viewer that joins after the first of two equal captures is granted access and shown nothing |
| Reconnect.Session.OnDisconnected | apps/client/src/SessionClient.cpp:341-388 | a drop schedules the next attempt or gives up, as the specified step |
| Reconnect.Session.DoConnectToHost | apps/client/src/SessionClient.cpp:130-147 | connecting records the host, clears the user's disconnect and dials |
| Reconnect.Session.DoDisconnectFromHost | apps/client/src/SessionClient.cpp:149-161 | a user's disconnect stops the timer and the reconnecting |
| Reconnect.Session.DoCancelReconnect | apps/client/src/SessionClient.cpp:841-853 | a cancel does the same and clears the count |
| Reconnect.Session.OnConnected | apps/client/src/SessionClient.cpp:296-308 | a successful connect clears the count and the reconnecting |
| Reconnect.Session.OnErrorOccurred | apps/client/src/SessionClient.cpp:390-400 | an error only marks the connection down |
| Reconnect.Session.AttemptReconnect | apps/client/src/SessionClient.cpp:829-839 | the timer dials the last host unless the user has disconnected |
| Reconnect.ReachableStatesAreConsistent | apps/client/src/SessionClient.cpp:130-161 | in every reachable state a user's disconnect means no timer and no reconnecting, and reconnecting means one to five attempts |
| Reconnect.SegmentSchedules | apps/client/src/SessionClient.cpp:362-379 | between successes and cancels each drop schedules the next delay until five have been, and nothing else does |
| Reconnect.BoundedReconnect | apps/client/src/SessionClient.cpp:362-379 | from zero attempts the delays are the first of 1, 2, 4, 8, 16 seconds, 31 seconds at most in all |
| Reconnect.NoDialAfterUserStops | apps/client/src/SessionClient.cpp:149-161 | after the user stops, nothing is dialled or scheduled until the user connects again |
| Reconnect.DisconnectIsFinal | apps/client/src/SessionClient.cpp:149-161 | the same for a disconnect the program asks for, from any state, and the reconnecting is off throughout |
| Reconnect.SuccessResetsBackoff | apps/client/src/SessionClient.cpp:296-301 | after a success the next drop waits one second |
| Reconnect.StateRemembers | apps/client/src/SessionClient.cpp:130-161 | after any run the fields hold the last host asked for, whether the user's last word was to stop, and the socket's last word |
| Reconnect.DialsExactly | apps/client/src/SessionClient.cpp:829-839 | after any run, connecting dials the host given, an armed timer dials the last host asked for, and nothing else dials |
| Reconnect.DropRedials | apps/client/src/SessionClient.cpp:362-379 | a drop nobody asked for arms the timer with the next of the five delays and its firing dials the last host; after five it does not |
| Reconnect.CancelResetsBackoff | apps/client/src/SessionClient.cpp:841-853 | after a cancel and a new connect the first drop waits one second |
| Stun.EncodeBindingRequest | services/shared/src/nat/stun.rs:33-40 | the request is 00 01 00 00 21 12 a4 42 and the transaction, and is no response to the decoder |
| Stun.DecodeBindingResponse | services/shared/src/nat/stun.rs:43-116 | the offset loop stays in bounds, ends, and computes the specified walk on any buffer |
| Stun.PaddingAligns | services/shared/src/nat/stun.rs:106-108 | the padding formula reaches the next 32-bit boundary |
| Stun.WalkFindsFirst | services/shared/src/nat/stun.rs:73-109 | on any list of padded attributes, whatever is left after them, the walk finds the first IPv4 XOR-MAPPED-ADDRESS |
| Stun.ResponseDecodes | services/shared/src/nat/stun.rs:43-116 | a response with such a list gives that address, or the local one if there is none |
| Stun.AcceptedIsResponse | services/shared/src/nat/stun.rs:43-116 | every accepted buffer is a response with some such list, so its answer is that of the list |
| Stun.DecodeErrorsIff | services/shared/src/nat/stun.rs:47-67 | each refusal in bytes: under 20, type not 01 01, cookie not 21 12 a4 42, shorter than the length says |
| Stun.FirstMappedIff | services/shared/src/nat/stun.rs:79-104 | the address is that of the first attribute of type 0020 with eight bytes or more and family 1, and there is none if no attribute is such |
| Stun.MappedIs | services/shared/src/nat/stun.rs:80-99 | address and port by bytes: each XORed with the cookie's byte |
| Stun.MappedBytes | services/shared/src/nat/stun.rs:80-99 | the value of section 15.2 of RFC 5389 for any address and port, byte by byte |
| Stun.ExampleResponse | services/shared/src/nat/stun.rs:43-116 | a literal response with the value of section 2.2 of RFC 5769 gives 192.0.2.1, port 32853 |
| Stun.EndpointRoundTrip | services/shared/src/nat/stun.rs:82-103 | an IPv4 endpoint encoded as section 15.2 of RFC 5389 says is decoded back, whatever attributes surround it |

## Left out

- SessionClient.Client.OnReadyRead: stops at a denied authentication, because what the rest of the buffer does then depends on when the socket reports its disconnect; a byte-order mark before a chat prefix, and the 64-bit wrap of width times height times four in the uncompressed fallback, are not modelled.
- SessionClient.Client.OnReadyRead: asks that no packet in the buffer has 2^32 - 28 bytes of payload or more, which every buffer under 2^32 bytes meets; past that the 32-bit size wraps.
- FrameSender.BuildFrame: asks for packets under 2^31 bytes, the largest length the byte array it fills is built with.
- Agent.Connection.OnReadyRead: asks that no packet in a read has 2^32 - 28 bytes of payload or more, which every read under 2^32 bytes meets; past that the 32-bit size wraps.
- Agent.Connection.HandleClientPacket: which passwords are accepted, and what lock or blank-screen actions do to the host, are not modelled; actions are recorded by number.
- Mac.Tag: is the source's own construction and no claim is made that it, or the cipher, is the one of RFC 8439, or about its strength.
- MirrorShield.ApplyMirrorShield: three bytes per pixel or more, because with one or two its three writes run into the neighbouring pixels; no overflow of window coordinates.
- DirtyRegion.DetectDirtyRegion: pixel offsets are unbounded integers; overflow of 32-bit offsets is not modelled.
- Capture.X11Capture.CaptureSingleFrame: frame sizes past 32 bits and a change of monitor between captures are not modelled.
- FileTransfer.FileStore.PrepareFileChunks: asks for a positive chunk size when the file is not empty, because with zero the source's loop never ends there.
- FileTransfer.FileStore.WriteChunkToFile: a file that exists can always be opened; permissions and disk errors are not modelled.
- AuditChain.AuditLogService.LogEvent: event identifiers and times are parameters; concurrent callers take turns on the lock.
- Agent.Broadcast: takes the list of clients as it stands; a client joining or leaving it is modelled for one connection at a time, in `AgentSession`.
- AgentSession.Serve: a captured frame counts from the moment the queued callback writes it, so the delay between capture thread and main thread is not modelled.
- SessionClient.Client.OnDisconnected: the status text and the name of the last target are not modelled.
- Random bytes, key pairs and the shared secret: randomness and a one-line XOR.
- Clipboard sending, chat, terminal, telemetry, history, transfer queue and progress simulation, adaptive bitrate, Wake-on-LAN: map and branch updates that would add only easy members.
- Identity, relay, signaling, ICE, TOTP, metrics and the gateway routes: the same.
- The other capture and input backends, the mobile apps, installers, scripts and infrastructure.
- The C++ STUN client, which returns a constant, and the mobile wrapper around the codec.
