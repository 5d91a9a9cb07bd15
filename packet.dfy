/** The datagram envelope of shared/src/packet.rs: a fixed 20-byte
    big-endian header, then the message bytes.

      offset  0  sequence number   u32
      offset  4  checksum          u32, CRC-32 of the message only
      offset  8  message length    u32
      offset 12  timestamp         i64, nanoseconds since the epoch
      offset 20  message           (message length) bytes
*/
module PacketCodec {
  import opened Wrappers
  import opened Bytes
  import Crc32

  const HEADER_SIZE: nat := 20

  /** `timestamp` is the packet's `DateTime<Utc>` counted in nanoseconds
      since the epoch; a date outside the i64 range has no wire form. */
  datatype Packet = Packet(sequenceNumber: u32, timestamp: int, message: seq<byte>)

  /** The capacity `to_bytes` reserves for its buffer, the largest UDP
      payload. The buffer does not grow: a write past its capacity panics. */
  const MAX_DATAGRAM: nat := 65507

  /** The packets `to_bytes` encodes without panicking: the header and the
      message fit the buffer, and the timestamp has an i64 nanosecond
      count (`timestamp_nanos` panics otherwise). */
  predicate Encodable(p: Packet) {
    InI64(p.timestamp) && HEADER_SIZE + |p.message| <= MAX_DATAGRAM
  }

  datatype PacketError =
    | InvalidLength(expected: nat, actual: nat)
    | InvalidChecksum(received: u32, computed: u32)
    | InvalidTimestamp

  /** A read position in a byte buffer (`Cursor<Bytes>`). */
  datatype Cursor = Cursor(data: seq<byte>, pos: nat) {
    predicate Valid() {
      pos <= |data|
    }

    function Remaining(): nat
      requires Valid()
    {
      |data| - pos
    }
  }

  /** The `ensure_size!` macro: fails unless `expected` bytes remain. */
  function EnsureSize(expected: nat, c: Cursor): (r: Result<(), PacketError>)
    requires c.Valid()
    ensures r.Ok? <==> expected <= c.Remaining()
    ensures r.Err? ==> r.error.InvalidLength? && r.error.expected == expected
                       && r.error.actual == c.Remaining() < expected
  {
    if c.Remaining() >= expected then Ok(()) else Err(InvalidLength(expected, c.Remaining()))
  }

  /** `read!(u32, cur)`: four bytes, most significant first, and the advanced cursor. */
  function ReadU32(c: Cursor): (r: Result<(u32, Cursor), PacketError>)
    requires c.Valid()
    ensures r.Ok? <==> c.Remaining() >= 4
    ensures r.Ok? ==> r.value.1 == Cursor(c.data, c.pos + 4) && r.value.1.Valid()
    ensures r.Ok? ==> r.value.0 == U32FromBE(c.data[c.pos..c.pos + 4])
    ensures r.Err? ==> r.error == InvalidLength(4, c.Remaining())
  {
    var _ :- EnsureSize(4, c);
    Ok((U32FromBE(c.data[c.pos..c.pos + 4]), Cursor(c.data, c.pos + 4)))
  }

  /** `read!(i64, cur)`. */
  function ReadI64(c: Cursor): (r: Result<(int, Cursor), PacketError>)
    requires c.Valid()
    ensures r.Ok? <==> c.Remaining() >= 8
    ensures r.Ok? ==> r.value.1 == Cursor(c.data, c.pos + 8) && r.value.1.Valid()
    ensures r.Ok? ==> r.value.0 == I64FromBE(c.data[c.pos..c.pos + 8]) && InI64(r.value.0)
    ensures r.Err? ==> r.error == InvalidLength(8, c.Remaining())
  {
    var _ :- EnsureSize(8, c);
    Ok((I64FromBE(c.data[c.pos..c.pos + 8]), Cursor(c.data, c.pos + 8)))
  }

  /** `take`: the next `count` bytes, without consuming the cursor further. */
  function Take(count: nat, c: Cursor): (r: Result<seq<byte>, PacketError>)
    requires c.Valid()
    ensures r.Ok? <==> count <= c.Remaining()
    ensures r.Ok? ==> |r.value| == count && c.pos + count <= |c.data|
    ensures r.Ok? ==> r.value == c.data[c.pos..c.pos + count]
    ensures r.Err? ==> r.error == InvalidLength(count, c.Remaining()) && c.Remaining() < count
  {
    var _ :- EnsureSize(count, c);
    Ok(c.data[c.pos..c.pos + count])
  }

  /** `Packet::new`: `now` is the clock reading `Utc::now()` returns. The
      checksum `new` computes is never used (a packet does not carry one),
      so it is not computed here. */
  function NewPacket(sequenceNumber: u32, message: seq<byte>, now: int): (p: Packet)
    ensures p.sequenceNumber == sequenceNumber && p.message == message
    ensures p.timestamp == now
  {
    Packet(sequenceNumber, now, message)
  }

  /** The wire form of a header with the given field values, followed by
      `message`. */
  function Layout(sequenceNumber: u32, checksum: u32, length: u32, timestamp: int, message: seq<byte>): (r: seq<byte>)
    requires InI64(timestamp)
    ensures |r| == HEADER_SIZE + |message|
  {
    U32ToBE(sequenceNumber) + U32ToBE(checksum) + U32ToBE(length) + I64ToBE(timestamp) + message
  }

  /** `Packet::to_bytes`, for the packets it encodes without panicking. The
      message length always fits its u32 field, so the `as u32` cast never
      truncates. */
  function ToBytes(p: Packet): (r: seq<byte>)
    requires Encodable(p)
    ensures HEADER_SIZE <= |r| == HEADER_SIZE + |p.message| <= MAX_DATAGRAM
    ensures r[HEADER_SIZE..] == p.message
  {
    Layout(p.sequenceNumber, Crc32.Checksum(p.message), |p.message|, p.timestamp, p.message)
  }

  /** `Packet::to_bytes` as the source writes it: each `put_*` call
      appends one field to the buffer. */
  method Encode(p: Packet) returns (bytes: seq<byte>)
    requires Encodable(p)
    ensures bytes == ToBytes(p)
  {
    bytes := [];
    bytes := bytes + U32ToBE(p.sequenceNumber);
    bytes := bytes + U32ToBE(Crc32.Checksum(p.message));
    bytes := bytes + U32ToBE(|p.message| as u32);
    bytes := bytes + I64ToBE(p.timestamp);
    bytes := bytes + p.message;
  }

  /** The header fields of a buffer long enough to hold a header. */
  function HeaderChecksum(bytes: seq<byte>): u32
    requires |bytes| >= HEADER_SIZE
  {
    U32FromBE(bytes[4..8])
  }

  function DeclaredLength(bytes: seq<byte>): u32
    requires |bytes| >= HEADER_SIZE
  {
    U32FromBE(bytes[8..12])
  }

  /** The header is complete and the declared message fits in what follows. */
  predicate LengthsFit(bytes: seq<byte>) {
    |bytes| >= HEADER_SIZE && DeclaredLength(bytes) <= |bytes| - HEADER_SIZE
  }

  function MessageBytes(bytes: seq<byte>): seq<byte>
    requires LengthsFit(bytes)
  {
    bytes[HEADER_SIZE..HEADER_SIZE + DeclaredLength(bytes)]
  }

  /** `Packet::from_bytes`: reads the header fields in order, takes the
      declared number of message bytes (ignoring any that follow), then
      compares the header checksum with the CRC-32 of the message. */
  function FromBytes(bytes: seq<byte>): Result<Packet, PacketError>
  {
    var cur := Cursor(bytes, 0);
    var (sequenceNumber, cur) :- ReadU32(cur);
    var (receivedChecksum, cur) :- ReadU32(cur);
    var (messageLength, cur) :- ReadU32(cur);
    var (timestamp, cur) :- ReadI64(cur);
    var message :- Take(messageLength, cur);
    var computedChecksum := Crc32.Checksum(message);
    if receivedChecksum != computedChecksum then
      Err(InvalidChecksum(receivedChecksum, computedChecksum))
    else
      Ok(Packet(sequenceNumber, timestamp, message))
  }

  /** What `from_bytes` returns: the length error exactly when the
      declared message does not fit, the checksum error exactly when it
      fits but its CRC-32 differs from the header's, and otherwise the
      header's fields with the declared message. It never reports a bad
      timestamp. */
  lemma FromBytesSpec(bytes: seq<byte>)
    ensures var r := FromBytes(bytes);
            && ((r.Err? && r.error.InvalidLength?) <==> !LengthsFit(bytes))
            && (r.Err? && r.error.InvalidLength? ==> r.error.actual < r.error.expected)
            && (r.Err? && r.error.InvalidLength? && |bytes| >= HEADER_SIZE ==>
                  r.error == InvalidLength(DeclaredLength(bytes), |bytes| - HEADER_SIZE))
            && ((r.Err? && r.error.InvalidChecksum?) <==>
                  LengthsFit(bytes) && HeaderChecksum(bytes) != Crc32.Checksum(MessageBytes(bytes)))
            && (r.Err? && r.error.InvalidChecksum? ==>
                  r.error == InvalidChecksum(HeaderChecksum(bytes), Crc32.Checksum(MessageBytes(bytes))))
            && (r.Ok? ==> LengthsFit(bytes) && r.value.message == MessageBytes(bytes)
                          && HeaderChecksum(bytes) == Crc32.Checksum(r.value.message))
            && (r.Ok? ==> r.value.sequenceNumber == U32FromBE(bytes[0..4])
                          && r.value.timestamp == I64FromBE(bytes[12..20]))
            && !(r.Err? && r.error.InvalidTimestamp?)
  {
  }

  /** A buffer too short for the header fails on the first field that does
      not fit: `expected` is that field's size and `actual` is what remains
      after the fields read before it. */
  lemma ShortHeader(bytes: seq<byte>)
    requires |bytes| < HEADER_SIZE
    ensures |bytes| < 4 ==> FromBytes(bytes) == Err(InvalidLength(4, |bytes|))
    ensures 4 <= |bytes| < 8 ==> FromBytes(bytes) == Err(InvalidLength(4, |bytes| - 4))
    ensures 8 <= |bytes| < 12 ==> FromBytes(bytes) == Err(InvalidLength(4, |bytes| - 8))
    ensures 12 <= |bytes| ==> FromBytes(bytes) == Err(InvalidLength(8, |bytes| - 12))
  {
  }

  /** Where each field of a layout sits, whatever follows it. */
  lemma LayoutSlices(sequenceNumber: u32, checksum: u32, length: u32, timestamp: int, message: seq<byte>,
                     trailing: seq<byte>)
    requires InI64(timestamp)
    ensures var b := Layout(sequenceNumber, checksum, length, timestamp, message) + trailing;
            && b[0..4] == U32ToBE(sequenceNumber)
            && b[4..8] == U32ToBE(checksum)
            && b[8..12] == U32ToBE(length)
            && b[12..20] == I64ToBE(timestamp)
            && b[20..] == message + trailing
  {
  }

  /** Reading a layout back yields the field values it was built from. */
  lemma LayoutFields(sequenceNumber: u32, checksum: u32, length: u32, timestamp: int, message: seq<byte>,
                     trailing: seq<byte>)
    requires InI64(timestamp)
    ensures var b := Layout(sequenceNumber, checksum, length, timestamp, message) + trailing;
            && U32FromBE(b[0..4]) == sequenceNumber
            && HeaderChecksum(b) == checksum
            && DeclaredLength(b) == length
            && I64FromBE(b[12..20]) == timestamp
  {
    LayoutSlices(sequenceNumber, checksum, length, timestamp, message, trailing);
    U32RoundTrip(sequenceNumber);
    U32RoundTrip(checksum);
    U32RoundTrip(length);
    I64RoundTrip(timestamp);
  }

  /** Decoding a layout whose length field is right: the packet when the
      checksum field matches the message, the checksum error otherwise. */
  lemma DecodeLayout(sequenceNumber: u32, checksum: u32, timestamp: int, message: seq<byte>, trailing: seq<byte>)
    requires InI64(timestamp) && |message| < U32_LIMIT
    ensures FromBytes(Layout(sequenceNumber, checksum, |message|, timestamp, message) + trailing)
            == if checksum == Crc32.Checksum(message) then Ok(Packet(sequenceNumber, timestamp, message))
               else Err(InvalidChecksum(checksum, Crc32.Checksum(message)))
  {
    var b := Layout(sequenceNumber, checksum, |message|, timestamp, message) + trailing;
    LayoutSlices(sequenceNumber, checksum, |message|, timestamp, message, trailing);
    LayoutFields(sequenceNumber, checksum, |message|, timestamp, message, trailing);
    assert MessageBytes(b) == (message + trailing)[..|message|] == message;
  }

  /** Decoding an encoded packet gives it back, whatever bytes follow it in
      the datagram. */
  lemma RoundTrip(p: Packet, trailing: seq<byte>)
    requires Encodable(p)
    ensures FromBytes(ToBytes(p) + trailing) == Ok(p)
  {
    assert ToBytes(p) == Layout(p.sequenceNumber, Crc32.Checksum(p.message), |p.message|, p.timestamp, p.message);
    DecodeLayout(p.sequenceNumber, Crc32.Checksum(p.message), p.timestamp, p.message, trailing);
  }

  /** The header of an encoding spells the packet's fields. */
  lemma ToBytesFields(p: Packet)
    requires Encodable(p)
    ensures var e := ToBytes(p);
            && U32FromBE(e[0..4]) == p.sequenceNumber
            && HeaderChecksum(e) == Crc32.Checksum(p.message)
            && DeclaredLength(e) == |p.message|
            && I64FromBE(e[12..20]) == p.timestamp
  {
    LayoutFields(p.sequenceNumber, Crc32.Checksum(p.message), |p.message|, p.timestamp, p.message, []);
    assert ToBytes(p) + [] == ToBytes(p);
  }

  /** Any buffer holding a header and `n` more bytes starts with the
      layout of the field values its header spells. */
  lemma HeaderIsLayout(bytes: seq<byte>, n: nat)
    requires HEADER_SIZE + n <= |bytes| && n < U32_LIMIT
    ensures bytes[..HEADER_SIZE + n]
            == Layout(U32FromBE(bytes[0..4]), U32FromBE(bytes[4..8]), U32FromBE(bytes[8..12]),
                      I64FromBE(bytes[12..20]), bytes[HEADER_SIZE..HEADER_SIZE + n])
  {
    U32FromToBE(bytes[0..4]);
    U32FromToBE(bytes[4..8]);
    U32FromToBE(bytes[8..12]);
    I64FromToBE(bytes[12..20]);
    assert bytes[..HEADER_SIZE + n]
        == bytes[0..4] + bytes[4..8] + bytes[8..12] + bytes[12..20] + bytes[HEADER_SIZE..HEADER_SIZE + n];
  }

  /** A successful decode consumed exactly a canonical layout: laying the
      packet out again reproduces the bytes it was read from. A datagram
      that fits a receive buffer decodes to a packet `to_bytes` encodes
      back to those bytes. */
  lemma DecodedIsCanonical(bytes: seq<byte>)
    requires FromBytes(bytes).Ok?
    ensures var p := FromBytes(bytes).value;
            && HEADER_SIZE + |p.message| <= |bytes| && |p.message| < U32_LIMIT && InI64(p.timestamp)
            && bytes[..HEADER_SIZE + |p.message|]
               == Layout(p.sequenceNumber, Crc32.Checksum(p.message), |p.message|, p.timestamp, p.message)
    ensures var p := FromBytes(bytes).value;
            |bytes| <= MAX_DATAGRAM ==> Encodable(p) && ToBytes(p) == bytes[..HEADER_SIZE + |p.message|]
  {
    var p := FromBytes(bytes).value;
    var n := DeclaredLength(bytes);
    assert p.message == MessageBytes(bytes) && |p.message| == n;
    HeaderIsLayout(bytes, n);
  }

  /** Every strict prefix of an encoding is rejected for its length. */
  lemma TruncatedIsInvalidLength(p: Packet, k: nat)
    requires Encodable(p)
    requires k < |ToBytes(p)|
    ensures var r := FromBytes(ToBytes(p)[..k]);
            r.Err? && r.error.InvalidLength? && r.error.actual < r.error.expected
  {
    var n := |p.message|;
    var e := ToBytes(p);
    var prefix := e[..k];
    if k >= HEADER_SIZE {
      assert e == Layout(p.sequenceNumber, Crc32.Checksum(p.message), n, p.timestamp, p.message);
      LayoutSlices(p.sequenceNumber, Crc32.Checksum(p.message), n, p.timestamp, p.message, []);
      assert e + [] == e;
      assert prefix[8..12] == e[8..12] == U32ToBE(n);
      U32RoundTrip(n);
      assert DeclaredLength(prefix) == n;
    }
    assert !LengthsFit(prefix);
    FromBytesSpec(prefix);
  }

  /** Overwriting the checksum field of an encoding with any other value
      makes decoding report both the tampered and the recomputed checksum. */
  lemma TamperedChecksum(p: Packet, forged: u32)
    requires Encodable(p)
    requires forged != Crc32.Checksum(p.message)
    ensures var e := ToBytes(p);
            FromBytes(e[..4] + U32ToBE(forged) + e[8..])
              == Err(InvalidChecksum(forged, Crc32.Checksum(p.message)))
  {
    var n := |p.message|;
    var e := ToBytes(p);
    assert e == Layout(p.sequenceNumber, Crc32.Checksum(p.message), n, p.timestamp, p.message);
    var tampered := Layout(p.sequenceNumber, forged, n, p.timestamp, p.message);
    assert e[..4] == U32ToBE(p.sequenceNumber);
    assert e[8..] == U32ToBE(n) + I64ToBE(p.timestamp) + p.message;
    assert e[..4] + U32ToBE(forged) + e[8..] == tampered + [];
    DecodeLayout(p.sequenceNumber, forged, p.timestamp, p.message, []);
  }

  /** The malformed 40-byte datagram of the codec's tests (the ASCII text
      "osaijioajdoiasjdoisajidjisoajdoiajiojdas"): its length field, the
      bytes "jdoi", declares 0x6a646f69 message bytes and only 20 remain. */
  lemma BadInputRejected()
    ensures FromBytes(BadInput()) == Err(InvalidLength(0x6a64_6f69, 20))
  {
    var b := BadInput();
    assert |b| == 40;
    assert b[8] == 0x6a && b[9] == 0x64 && b[10] == 0x6f && b[11] == 0x69;
    assert b[8..12] == [0x6a, 0x64, 0x6f, 0x69];
    assert DeclaredLength(b) == 0x6a64_6f69;
  }

  function BadInput(): seq<byte> {
    [ 0x6f, 0x73, 0x61, 0x69, 0x6a, 0x69, 0x6f, 0x61, 0x6a, 0x64,
      0x6f, 0x69, 0x61, 0x73, 0x6a, 0x64, 0x6f, 0x69, 0x73, 0x61,
      0x6a, 0x69, 0x64, 0x6a, 0x69, 0x73, 0x6f, 0x61, 0x6a, 0x64,
      0x6f, 0x69, 0x61, 0x6a, 0x69, 0x6f, 0x6a, 0x64, 0x61, 0x73 ]
  }
}
