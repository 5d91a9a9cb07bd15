# baseplate: a verified model of the UDP session protocol

baseplate is a small client/server game protocol over UDP, written in Rust.
This project models its sequential core in Dafny and proves properties of
that model:

- **the packet codec** (`shared/src/packet.rs`). A 20-byte big-endian header
  (sequence number, CRC-32 of the message, message length, timestamp in
  nanoseconds) is followed by the message. Decoding fails with
  `InvalidLength` or `InvalidChecksum`;
- **the server session actor** (`server/src/session.rs`). It keeps two
  sequence counters and a three-state handshake machine. Its mailbox loop
  handles `Send`, `Recv` and `Stop` in order;
- **the two generations of the client connection**: the asynchronous one
  (`client/src/conn.rs`) and the synchronous one (`client/src/main.rs`). Both
  have a send counter, a receive loop with an anti-replay guard, and the
  client half of the handshake;
- **the server's session registry** (`server/src/main.rs`). Sessions are
  created lazily on every datagram and dropped once they report being
  disconnected. A tick snapshots positions and broadcasts to every session;
- **the `retry` combinator** (`shared/src/future.rs`).

## Modules

- `Bytes`: fixed-width integers, their big-endian encodings (`put_u32_be`,
  `get_i64_be`, …) with round-trip lemmas in both directions, and the
  little-endian integers bincode uses.
- `Crc32`: CRC-32 with the frame check sequence polynomial of clause 3.2.9
  of IEEE 802.3, computed bit by bit, with its standard check value proved.
- `PacketCodec`: `Packet`, `PacketError`, the cursor reads, `to_bytes` and
  `from_bytes`. `to_bytes` writes into a buffer with a capacity of 65507 bytes
  that does not grow, so only packets whose encoding fits are encodable.
  `FromBytes` has no contract of its own; the lemma `FromBytesSpec` states it.
- `Proto` and `Bincode`: the message types, plus a concrete serialisation
  laid out as bincode's default configuration does. Deserialising what was
  serialised is therefore a lemma, not an assumption.
- `SequenceGuard`: consecutive numbering of outgoing packets, and the
  anti-replay guard as a function `NextSpec` over what successive `recv1`
  calls yield. Both clients' `next_message` loops are proved against it.
- `ServerSession`: the handshake transitions and one mailbox step as
  functions. A `Session` class has the source's mutable fields and methods.
- `AsyncClient` and `SyncClient`: one `Conn` class each, with the send,
  receive and connect specifications they are proved against.
- `ServerRegistry`: a `State` class holding the `sessions` map.
- `EndToEnd`: the asynchronous client against a fresh server session.
- `Retry`: the `retry` loop.

Socket I/O, the clock and randomness are inputs:

- a client's socket is an inbox, the sequence of what `recv_from` would
  return;
- a send is a success flag;
- `Utc::now()` is a `now` argument;
- `random::<u32>()` is a nonce carried by each mailbox entry.

When the inbox runs out while `next_message` is still looping, the outcome
is `Pending`. For the asynchronous client the 5-second timeout then fires
(`TimedOut`). The synchronous client blocks for ever (`Blocked`).

Behaviour of the code that the model keeps, including where it is easy to
misread:

- `Message` has three variants (shared/src/proto.rs:4-9): Connect,
  Handshake and Heartbeat. The session actor keeps no position and no
  disconnected flag (server/src/session.rs:12-20).
- A received body that fails to deserialise makes the session panic at the
  `unwrap()` of server/src/session.rs:44, after `client_sequence` has already
  been updated. The model ends the actor with `Panicked`.
- The asynchronous client increments `client_sequence` only once `send_to`
  has succeeded (client/src/conn.rs:65-66). The synchronous client ignores
  the result of `send` and always increments it (client/src/main.rs:55-56).
- `retry` starts the next attempt at once, with no delay between attempts
  (shared/src/future.rs:5-22).
- The registry in server/src/main.rs calls session operations
  (`Session::new`, `on_packet`, `disconnected`, `pos`, `send`) that the
  session actor of server/src/session.rs does not define. It also builds a
  `Message::Refresh`, which proto.rs does not declare. In the model the
  session is a value of a type parameter, and those operations are function
  parameters.

## Model

| member | source | states |
|---|---|---|
| Bytes.U32RoundTrip | shared/src/packet.rs:91-95 | reading back four bytes written big-endian gives the original u32 |
| Bytes.U32FromToBE | shared/src/packet.rs:20-27 | any four bytes are the big-endian encoding of the u32 read from them |
| Bytes.I64RoundTrip | shared/src/packet.rs:96 | an i64 written as eight big-endian two's-complement bytes reads back unchanged |
| Bytes.I64FromToBE | shared/src/packet.rs:20-27 | any eight bytes are the big-endian encoding of the i64 read from them |
| Bytes.FromToLE | shared/src/proto.rs:4-9 | a little-endian integer of k bytes reads back as the number written |
| Bytes.ToFromLE | shared/src/proto.rs:4-9 | every byte string is the little-endian encoding, at its own width, of the number it spells |
| Crc32.CheckValue | shared/src/packet.rs:94 | `checksum_ieee`'s standard check value: the CRC-32 of "123456789" is 0xCBF43926 |
| PacketCodec.EnsureSize | shared/src/packet.rs:12-18 | succeeds exactly when `expected` bytes remain; otherwise InvalidLength whose `actual` is the remaining count, below `expected` |
| PacketCodec.ReadU32 | shared/src/packet.rs:20-27 | succeeds exactly when four bytes remain, yielding their big-endian u32 and the cursor four bytes on; otherwise InvalidLength(4, remaining) |
| PacketCodec.ReadI64 | shared/src/packet.rs:20-27 | succeeds exactly when eight bytes remain, yielding their big-endian i64 and the cursor eight bytes on; otherwise InvalidLength(8, remaining) |
| PacketCodec.Take | shared/src/packet.rs:29-32 | succeeds exactly when `count` bytes remain, yielding exactly those bytes; otherwise InvalidLength(count, remaining) |
| PacketCodec.NewPacket | shared/src/packet.rs:68-72 | keeps the sequence number and message, stamps the clock reading; carries no checksum |
| PacketCodec.Layout | shared/src/packet.rs:91-98 | a header with given field values is 20 bytes followed by the message |
| PacketCodec.ToBytes | shared/src/packet.rs:91-99 | for a packet whose encoding fits the 65507-byte buffer and whose timestamp has an i64 nanosecond count: 20 + \|message\| bytes, at most 65507, ending with the message itself |
| PacketCodec.Encode | shared/src/packet.rs:91-99 | appending the fields one `put_*` at a time yields exactly `ToBytes` |
| PacketCodec.FromBytesSpec | shared/src/packet.rs:74-89 | the contract of `FromBytes`: InvalidLength exactly when the header or declared message does not fit (with actual < expected, and the declared and remaining counts once a header is present); InvalidChecksum exactly when it fits but the CRC-32 of the message differs, carrying both values; otherwise the header's fields and declared message; never InvalidTimestamp |
| PacketCodec.ShortHeader | shared/src/packet.rs:78-81 | a buffer shorter than the header fails on the first field that does not fit, with that field's size expected and the bytes left after the earlier fields actual |
| PacketCodec.LayoutSlices | shared/src/packet.rs:91-98 | each field of an encoding sits at its fixed offset, whatever follows |
| PacketCodec.LayoutFields | shared/src/packet.rs:74-81 | the header reads back the field values it was written from |
| PacketCodec.DecodeLayout | shared/src/packet.rs:74-89 | a header with the right length decodes to the packet when its checksum field matches the message's CRC-32, and otherwise to InvalidChecksum(field, CRC) |
| PacketCodec.RoundTrip | shared/src/packet.rs:116-128 | from_bytes(to_bytes(p) ++ trailing) == p for every packet to_bytes encodes, so trailing bytes are ignored |
| PacketCodec.ToBytesFields | shared/src/packet.rs:91-98 | the header spells the sequence number, the CRC-32 of the message alone, the message length and the timestamp |
| PacketCodec.HeaderIsLayout | shared/src/packet.rs:74-82 | any buffer holding a header and n more bytes begins with the layout of its own header fields |
| PacketCodec.DecodedIsCanonical | shared/src/packet.rs:74-89 | whatever decodes successfully begins with exactly the layout of the decoded packet; from a datagram of at most 65507 bytes the packet is encodable and to_bytes reproduces those bytes |
| PacketCodec.TruncatedIsInvalidLength | shared/src/packet.rs:74-82 | every strict prefix of an encoding fails with InvalidLength, actual < expected |
| PacketCodec.TamperedChecksum | shared/src/packet.rs:84-86 | replacing the checksum field with any other value gives InvalidChecksum(forged, CRC-32 of the message) |
| PacketCodec.BadInputRejected | shared/src/packet.rs:130-136 | the 40-byte test string fails with InvalidLength(0x6a646f69, 20) |
| Bincode.SerializeHandshake | shared/src/handshake.rs:10-15 | a handshake message serialises to 4 to 8 bytes |
| Bincode.Serialize | shared/src/proto.rs:4-9 | a message serialises to 4 to 12 bytes |
| Bincode.TagRoundTrip | shared/src/proto.rs:4-9 | the variant index reads back from the first four bytes |
| Bincode.DeserializeSerializeHandshake | shared/src/handshake.rs:10-15 | deserialising a serialised handshake message gives it back, whatever follows |
| Bincode.DeserializeSerialize | shared/src/proto.rs:4-9 | deserialising a serialised message gives it back, whatever follows |
| Bincode.SerializeDeserializeHandshake | shared/src/handshake.rs:10-15 | whatever deserialises as a handshake message begins with that message's serialisation |
| Bincode.SerializeDeserialize | server/src/session.rs:44 | the converse of the round trip for `bincode::deserialize`: whatever deserialises begins with the serialisation of the message it yields |
| SequenceGuard.ConsecutiveExtend | server/src/session.rs:103-111 | sending the packet numbered `next` and wrapping the counter on keeps outgoing numbers consecutive from 1 |
| SequenceGuard.AcceptMessage | client/src/conn.rs:87-92 | a message comes out exactly when the number exceeds the last seen and the body deserialises, and it is that body |
| SequenceGuard.NextSpec | client/src/conn.rs:83-104 | a delivery is the first reading not skipped, fresh and deserialising; a panic is a foreign datagram; every earlier reading was skipped; it keeps waiting exactly when every reading is skipped |
| SequenceGuard.NextStep | client/src/conn.rs:84-101 | one loop turn: a skipped reading defers to the rest, a foreign one panics, an accepted one is delivered |
| SequenceGuard.TwoDeliveries | client/src/conn.rs:42-57 | two `next_message` calls in a row deliver packets in reading order with strictly increasing numbers beyond the starting one |
| SequenceGuard.FirstUnskippedDecides | client/src/conn.rs:83-104 | conversely, the first reading that is not skipped fixes the outcome |
| SequenceGuard.NextIgnoresLater | client/src/conn.rs:83-104 | readings after the one that ended the loop are never looked at |
| ServerSession.ConnectTransition | server/src/session.rs:69-79 | only Disconnected moves, to Negotiating(nonce), and it replies Challenge(nonce); any other state is unchanged with no reply |
| ServerSession.HandshakeTransition | server/src/session.rs:81-101 | Negotiating(n) with Challenge(n) becomes Connected with Success; another nonce gives Disconnected with Failure; every other pair is unchanged with no reply |
| ServerSession.SendView | server/src/session.rs:103-112 | a successful send keeps every earlier packet and appends exactly `Packet::new(server_sequence, serialised message, now)`, then wraps server_sequence on; client_sequence and the handshake state never change; numbering stays consecutive; a failed send changes nothing |
| ServerSession.Step | server/src/session.rs:37-64 | Stop halts; a stale packet changes nothing; an accepted one sets client_sequence to its number; an accepted Connect or Handshake body applies ConnectTransition or HandshakeTransition and sends its reply; an accepted Heartbeat is answered with exactly one Heartbeat packet; a queued Send sends its message; it panics exactly on an undeserialisable body, a failed heartbeat reply or a failed queued send |
| ServerSession.Run | server/src/session.rs:35-67 | the loop handles entries in order up to the first Stop or panic; client_sequence never decreases and sent packets stay consecutive |
| ServerSession.TakenNumbers | server/src/session.rs:40-44 | the packet numbers a run accepts strictly increase and all exceed the starting client_sequence, so none is handled twice |
| ServerSession.RunHaltsAt | server/src/session.rs:35-67 | a run that halts was carried on by every earlier entry, and the last processed entry's own step is the Stop or panic that leaves the final state |
| ServerSession.NothingAfterStop | server/src/session.rs:37-39 | entries queued after a Stop do not change the run |
| ServerSession.HandshakeHappyPath | server/src/session.rs:69-101 | a fresh session given Connect and then the echoed nonce is Connected, having sent Challenge(nonce) as 1 and Success as 2 |
| ServerSession.Session.Create | server/src/session.rs:28 | client_sequence 0, server_sequence 1, Disconnected, nothing sent |
| ServerSession.Session.Send | server/src/session.rs:103-112 | stamps server_sequence and increments it only once the send succeeds; other fields unchanged |
| ServerSession.Session.OnConnect | server/src/session.rs:69-79 | the new state is ConnectTransition's, and its reply is sent |
| ServerSession.Session.OnHandshakeMessage | server/src/session.rs:81-101 | the new state is HandshakeTransition's, and its reply is sent |
| ServerSession.Session.Handle | server/src/session.rs:38-64 | one loop iteration does what Step specifies |
| ServerSession.Session.Act | server/src/session.rs:35-67 | draining the mailbox does what Run specifies |
| ServerRegistry.DatagramStep | server/src/main.rs:84-100 | other addresses untouched; remote's entry is the existing session or a new one, is inserted even when decoding fails, is updated by on_packet, and is absent exactly when decoding succeeded and the session reports disconnected |
| ServerRegistry.State.constructor | server/src/main.rs:38-42 | the registry starts empty |
| ServerRegistry.State.HandleDatagram | server/src/main.rs:84-100 | the in-place entry/on_packet/remove sequence leaves exactly DatagramStep's map |
| ServerRegistry.State.Positions | server/src/main.rs:71 | exactly one position per registered session, each the position of that session |
| ServerRegistry.State.Broadcast | server/src/main.rs:44-46 | every session, and only those, has sent the message |
| ServerRegistry.State.Tick | server/src/main.rs:67-73 | one position per session snapshotted before the broadcast, and every session sent the Refresh built from them |
| AsyncClient.Recv1 | client/src/conn.rs:70-81 | a foreign datagram exactly when the sender is not `remote`; a packet exactly when a datagram from `remote` decodes |
| AsyncClient.Readings | client/src/conn.rs:70-81 | one reading per received item |
| AsyncClient.SendConn | client/src/conn.rs:60-68 | a successful send keeps every earlier packet, appends exactly `Packet::new(client_sequence, serialised message, now)` and moves the counter on by one; server_sequence and the inbox never change; numbering stays consecutive; a failed send changes nothing |
| AsyncClient.ReceiveConn | client/src/conn.rs:83-104 | next_message is the guard loop NextSpec over the inbox; server_sequence becomes the delivered number, otherwise unchanged |
| AsyncClient.EchoChallenge | client/src/conn.rs:43-57 | after a successful echo carrying the nonce unchanged: TimedOut exactly when the inbox runs out, Panicked exactly on a stranger, Established exactly when the next accepted message is Success, HandshakeFailure exactly when it is anything else; SendFailed on a failed echo |
| AsyncClient.ConnectSpec | client/src/conn.rs:30-58 | established only after both sends succeeded, having sent Connect as 1 and the echo as 2; SendFailed only on a failed send, and always on a failed first send; TimedOut only with the inbox exhausted |
| AsyncClient.ConnectDecided | client/src/conn.rs:30-58 | every outcome of connect from the two guard loops over the inbox: TimedOut when one runs out, Panicked on a stranger, HandshakeFailure when the first message is not a Challenge, SendFailed when a send fails, and Established(nonce) exactly when the second message is Success, HandshakeFailure otherwise |
| AsyncClient.EstablishedDeliveries | client/src/conn.rs:42-57 | an established connect took the Challenge and then Success through two guard loops |
| AsyncClient.EstablishedMeansAnswered | client/src/conn.rs:42-57 | established only if the inbox held a Challenge with the echoed nonce and later a Success with a higher number |
| AsyncClient.StrangerPanics | client/src/conn.rs:74-76 | a datagram from another address arriving first makes connect panic |
| AsyncClient.ReadsEncodedPacket | client/src/conn.rs:79 | recv1 reads back a packet encoded by the remote |
| AsyncClient.ReceivesFreshPacket | client/src/conn.rs:86-92 | a fresh, well-formed packet at the head of the inbox is delivered at once |
| AsyncClient.ConnectHappyPath | client/src/conn.rs:30-58 | Challenge then Success from the server establish the connection with that nonce |
| AsyncClient.Conn.constructor | client/src/conn.rs:33 | server_sequence 0, client_sequence 1 |
| AsyncClient.Conn.Send | client/src/conn.rs:60-68 | does what SendConn specifies and keeps numbering consecutive |
| AsyncClient.Conn.NextMessage | client/src/conn.rs:83-104 | the loop returns what ReceiveConn specifies and leaves its state |
| AsyncClient.Conn.Connect | client/src/conn.rs:30-58 | the outcome and final state are ConnectSpec's |
| SyncClient.Recv1 | client/src/main.rs:60-67 | a packet exactly when a datagram decodes; never foreign, as the socket is connected |
| SyncClient.Readings | client/src/main.rs:60-67 | one reading per item, none of them foreign |
| SyncClient.SendConn | client/src/main.rs:50-58 | the packet carries client_sequence, which moves on by one whatever the socket did |
| SyncClient.ReceiveConn | client/src/main.rs:69-89 | next_message is NextSpec over the inbox and never panics; server_sequence becomes the delivered number |
| SyncClient.EchoChallenge | client/src/main.rs:31-47 | the echo carries the nonce unchanged and is always sent; then Blocked exactly when the inbox runs out, Established exactly when the next accepted message is Success, Panicked exactly when it is anything else |
| SyncClient.ConnectSpec | client/src/main.rs:23-48 | Connect is always sent as 1; established only having sent Connect and the echo, with the counter at 3 |
| SyncClient.ConnectDecided | client/src/main.rs:23-48 | every outcome of connect from the two guard loops over the inbox: never a stranger; Blocked when one runs out, Panicked when the first message is not a Challenge, and Established(nonce) exactly when the second message is Success, Panicked otherwise |
| SyncClient.EstablishedDeliveries | client/src/main.rs:31-47 | an established connect took the Challenge and then Success through two guard loops |
| SyncClient.EstablishedMeansAnswered | client/src/main.rs:31-47 | established only if the inbox held a Challenge with the echoed nonce and later a Success with a higher number |
| SyncClient.UnexpectedFirstPanics | client/src/main.rs:31-38 | a first accepted message that is not a Challenge, including a premature Success or Failure, makes connect panic |
| SyncClient.ReadsEncodedPacket | client/src/main.rs:65 | recv1 reads back an encoded packet |
| SyncClient.ReceivesFreshPacket | client/src/main.rs:71-77 | a fresh, well-formed packet at the head of the inbox is delivered at once |
| SyncClient.ConnectHappyPath | client/src/main.rs:23-48 | Challenge then Success from the server establish the connection with that nonce |
| SyncClient.Conn.constructor | client/src/main.rs:26 | server_sequence 0, client_sequence 1 |
| SyncClient.Conn.Send | client/src/main.rs:50-58 | does what SendConn specifies |
| SyncClient.Conn.NextMessage | client/src/main.rs:69-89 | the loop returns what ReceiveConn specifies and leaves its state |
| SyncClient.Conn.Connect | client/src/main.rs:23-48 | the outcome and final state are ConnectSpec's |
| EndToEnd.ClientMeetsServer | client/src/conn.rs:30-58 | a fresh session fed the client's two packets ends Connected, and its two replies establish the client's connection with the session's nonce |
| Retry.Retry | shared/src/future.rs:5-22 | returns the first Ok after only failures; one counter step per failure; with times ≥ 1, the last error after exactly `times` failures; with times = 0, it stops only on success |

## Left out

- Threads, channels, locks, atomics and `join_all`: every component runs sequentially. The session mailbox is a sequence, and the atomics are plain fields.
- Socket I/O (`bind`, `connect`, `send_to`, `recv_from`), the 65507-byte buffers and bind errors: received data is an input sequence, and a send is a success flag.
- The port-reuse trick, `main` and the endless loops around `read_socket` and `tick_loop`: each modelled operation is one pass.
- The 16 ms tick sleep and the 5-second connect timeouts: the timeout is the `TimedOut` outcome when the inbox runs out.
- Logging (`trace!`, `warn!`, hexdumps): no effect on state.
- shared/src/state.rs: floating-point positions. Positions and the `Refresh` message are type parameters of the registry.
- `start_heartbeat_tick` (client/src/main.rs:41) is not part of this model: its definition is not in the source shown.
- Bincode is a concrete stand-in with bincode's default layout. Its exact failure modes on malformed input beyond "too short or unknown variant" are not modelled.
- Crc32.CheckValue: only the standard check value is proved; CRC-32's error-detection guarantees (every single-bit and burst error caught) are not.
- PacketCodec.ToBytes: requires `Encodable`, a timestamp with an i64 nanosecond count and an encoding of at most 65507 bytes. Outside it `to_bytes` panics (in `timestamp_nanos`, or writing past the fixed capacity of its `BytesMut` in bytes 0.4), and that panic is not modelled as an outcome. Every message the protocol sends is at most 12 bytes.
- Debug-build overflow panics on `+= 1`: counters wrap at 2^32, as in release builds and `fetch_add`.
- ServerSession.Step: a failed send of a handshake reply is ignored, as `on_connect`'s result and `on_handshake_message`'s send are discarded. Serialisation and encoding failures inside `send` cannot occur and are not modelled.
- ServerSession.HandshakeHappyPath: shown for a fresh session and for packets numbered 1 and 2 only.
- Update in place of a Rust `HashMap` versus Dafny's value `map`: aliasing of sessions inside the map is not captured, and the iteration order of `values()` is an arbitrary choice.
