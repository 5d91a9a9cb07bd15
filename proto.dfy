/** The protocol's message types: shared/src/handshake.rs and
    shared/src/proto.rs. Plain data, no behaviour of their own. */
module Proto {
  import opened Bytes

  datatype HandshakeState = Disconnected | Negotiating(nonce: u32) | Connected

  datatype HandshakeMessage = Challenge(nonce: u32) | Success | Failure

  datatype Message = Connect | Handshake(handshake: HandshakeMessage) | Heartbeat
}

/** How a `Message` travels inside `Packet.message`. The source hands this to
    bincode; this module lays messages out the way bincode's default
    configuration does (a little-endian u32 variant index, then the fields,
    u32 fields little-endian, trailing bytes not inspected), so that
    deserialising what was serialised is proved here rather than assumed. */
module Bincode {
  import opened Wrappers
  import opened Bytes
  import opened Proto

  function Tag(index: nat): seq<byte>
    requires index < U32_LIMIT
  {
    ToLE(index, 4)
  }

  function SerializeHandshake(h: HandshakeMessage): (r: seq<byte>)
    ensures 4 <= |r| <= 8
  {
    match h
    case Challenge(nonce) => Tag(0) + ToLE(nonce, 4)
    case Success => Tag(1)
    case Failure => Tag(2)
  }

  function Serialize(m: Message): (r: seq<byte>)
    ensures 4 <= |r| <= 12
  {
    match m
    case Connect => Tag(0)
    case Handshake(h) => Tag(1) + SerializeHandshake(h)
    case Heartbeat => Tag(2)
  }

  function DeserializeHandshake(data: seq<byte>): Option<HandshakeMessage> {
    if |data| < 4 then None
    else
      var index := FromLE(data[..4]);
      if index == 0 then
        if |data| < 8 then None else Some(Challenge(U32Of(FromLE(data[4..8]))))
      else if index == 1 then Some(Success)
      else if index == 2 then Some(Failure)
      else None
  }

  /** Fails on a short buffer or an unknown variant index. */
  function Deserialize(data: seq<byte>): Option<Message> {
    if |data| < 4 then None
    else
      var index := FromLE(data[..4]);
      if index == 0 then Some(Connect)
      else if index == 1 then
        match DeserializeHandshake(data[4..])
        case None => None
        case Some(h) => Some(Handshake(h))
      else if index == 2 then Some(Heartbeat)
      else None
  }

  function U32Of(n: nat): u32
    requires n < Pow256(4)
  {
    Pow256Values();
    n
  }

  lemma TagRoundTrip(index: nat, rest: seq<byte>)
    requires index < 3
    ensures |Tag(index) + rest| >= 4 && FromLE((Tag(index) + rest)[..4]) == index
  {
    Pow256Values();
    assert (Tag(index) + rest)[..4] == Tag(index);
    FromToLE(index, 4);
  }

  lemma {:induction false} DeserializeSerializeHandshake(h: HandshakeMessage, trailing: seq<byte>)
    ensures DeserializeHandshake(SerializeHandshake(h) + trailing) == Some(h)
  {
    match h
    case Challenge(nonce) =>
      var data := SerializeHandshake(h) + trailing;
      assert data == Tag(0) + (ToLE(nonce, 4) + trailing);
      TagRoundTrip(0, ToLE(nonce, 4) + trailing);
      assert data[4..8] == ToLE(nonce, 4);
      Pow256Values();
      FromToLE(nonce, 4);
    case Success => TagRoundTrip(1, trailing);
    case Failure => TagRoundTrip(2, trailing);
  }

  /** Deserialising a serialised message gives it back, whatever follows it. */
  lemma {:induction false} DeserializeSerialize(m: Message, trailing: seq<byte>)
    ensures Deserialize(Serialize(m) + trailing) == Some(m)
  {
    match m
    case Connect => TagRoundTrip(0, trailing);
    case Heartbeat => TagRoundTrip(2, trailing);
    case Handshake(h) =>
      var rest := SerializeHandshake(h) + trailing;
      assert Serialize(m) + trailing == Tag(1) + rest;
      TagRoundTrip(1, rest);
      assert (Serialize(m) + trailing)[4..] == rest;
      DeserializeSerializeHandshake(h, trailing);
  }

  lemma {:induction false} SerializeDeserializeHandshake(data: seq<byte>)
    requires DeserializeHandshake(data).Some?
    ensures var h := DeserializeHandshake(data).value;
            |SerializeHandshake(h)| <= |data| && data[..|SerializeHandshake(h)|] == SerializeHandshake(h)
  {
    ToFromLE(data[..4]);
    if FromLE(data[..4]) == 0 {
      ToFromLE(data[4..8]);
      Pow256Values();
      assert data[..8] == data[..4] + data[4..8];
    }
  }

  /** The converse of DeserializeSerialize: whatever deserialises begins
      with the serialisation of the message it yields, so a message has one
      encoding and any bytes after it are ignored. */
  lemma {:induction false} SerializeDeserialize(data: seq<byte>)
    requires Deserialize(data).Some?
    ensures var m := Deserialize(data).value;
            |Serialize(m)| <= |data| && data[..|Serialize(m)|] == Serialize(m)
  {
    ToFromLE(data[..4]);
    var m := Deserialize(data).value;
    if m.Handshake? {
      SerializeDeserializeHandshake(data[4..]);
      var k := |SerializeHandshake(m.handshake)|;
      assert data[..4 + k] == data[..4] + data[4..][..k];
    }
  }
}
