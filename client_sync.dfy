/** The synchronous client connection of client/src/main.rs, the older
    generation of the client. Its socket is connected to the server, so
    the system drops datagrams from anyone else before `recv` sees them:
    the inbox holds only what `recv` yields. Send results are ignored, so a
    send needs no success flag: `sent` lists every packet handed to the
    socket. An inbox that runs out while `next_message` is still looping
    means the call blocks for ever. */
module SyncClient {
  import opened Wrappers
  import opened Bytes
  import opened Proto
  import Bincode
  import opened PacketCodec
  import opened SequenceGuard

  const INITIAL_SERVER_SEQUENCE: u32 := 0
  const INITIAL_CLIENT_SEQUENCE: u32 := 1

  /** One `recv` result: an error, or a datagram from the server. */
  datatype Incoming = RecvError | Datagram(data: seq<byte>)

  /** `recv1`: a packet exactly when the datagram decodes. */
  function Recv1(item: Incoming): (r: Reading)
    ensures !r.Foreign?
    ensures r.Read? <==> item.Datagram? && FromBytes(item.data).Ok?
    ensures r.Read? ==> FromBytes(item.data) == Ok(r.packet)
  {
    match item
    case RecvError => Unreadable
    case Datagram(data) =>
      match FromBytes(data)
      case Ok(p) => Read(p)
      case Err(_) => Unreadable
  }

  /** What successive `recv1` calls make of the items, in order. */
  function Readings(items: seq<Incoming>): (r: seq<Reading>)
    ensures |r| == |items|
    ensures forall i :: 0 <= i < |r| ==> !r[i].Foreign?
  {
    if items == [] then [] else [Recv1(items[0])] + Readings(items[1..])
  }

  lemma {:induction false} ReadingAt(items: seq<Incoming>, i: nat)
    requires i < |items|
    ensures Readings(items)[i] == Recv1(items[i])
    decreases i
  {
    if i > 0 {
      ReadingAt(items[1..], i - 1);
    }
  }

  lemma {:induction false} ReadingsFrom(items: seq<Incoming>, k: nat)
    requires k <= |items|
    ensures Readings(items)[k..] == Readings(items[k..])
    decreases k
  {
    if k > 0 {
      ReadingsFrom(items[1..], k - 1);
      assert items[1..][k - 1..] == items[k..];
    }
  }

  datatype ConnView = ConnView(
    serverSequence: u32,
    clientSequence: u32,
    sent: seq<Packet>,
    inbox: seq<Incoming>)

  function InitialConn(inbox: seq<Incoming>): ConnView {
    ConnView(INITIAL_SERVER_SEQUENCE, INITIAL_CLIENT_SEQUENCE, [], inbox)
  }

  ghost predicate ConnValid(v: ConnView) {
    Consecutive(v.clientSequence, v.sent)
  }

  /** `send`: the packet carries `client_sequence`, which moves on whether
      or not the socket took it. */
  function SendConn(v: ConnView, msg: Message, now: int): (w: ConnView)
    ensures ConnValid(v) ==> ConnValid(w)
    ensures w.clientSequence == WrappingInc(v.clientSequence)
    ensures |w.sent| == |v.sent| + 1 && w.sent[..|v.sent|] == v.sent
    ensures w.sent[|v.sent|] == NewPacket(v.clientSequence, Bincode.Serialize(msg), now)
    ensures w.serverSequence == v.serverSequence && w.inbox == v.inbox
  {
    var p := NewPacket(v.clientSequence, Bincode.Serialize(msg), now);
    ConsecutiveExtend(v.clientSequence, v.sent, p);
    v.(sent := v.sent + [p], clientSequence := WrappingInc(v.clientSequence))
  }

  datatype Received = Received(next: Next, view: ConnView)

  /** `next_message`: the guard loop over the readings of the inbox. It
      never fails and never panics. */
  function ReceiveConn(v: ConnView): (r: Received)
    ensures r.next == NextSpec(v.serverSequence, Readings(v.inbox))
    ensures !r.next.Panic?
    ensures r.view.sent == v.sent && r.view.clientSequence == v.clientSequence
    ensures r.next.Delivered? ==> r.view.serverSequence == r.next.sequence > v.serverSequence
    ensures !r.next.Delivered? ==> r.view.serverSequence == v.serverSequence
    ensures r.next.Pending? ==> r.view.inbox == []
    ensures r.next.Delivered? ==> r.next.consumed <= |v.inbox| && r.view.inbox == v.inbox[r.next.consumed..]
  {
    match NextSpec(v.serverSequence, Readings(v.inbox))
    case Pending => Received(Pending, v.(inbox := []))
    case Panic(_) =>
      assert false;
      Received(Pending, v)
    case Delivered(m, s, k) => Received(Delivered(m, s, k), v.(serverSequence := s, inbox := v.inbox[k..]))
  }

  /** How `connect` ends: established, blocked in `next_message` for ever,
      or the "handshake failed" panic on an unexpected message. */
  datatype ConnectOutcome = Established(nonce: u32) | Blocked | Panicked

  datatype ConnectResult = ConnectResult(outcome: ConnectOutcome, view: ConnView)

  function ConnectPackets(nonce: u32, now1: int, now2: int): seq<Packet> {
    [NewPacket(1, Bincode.Serialize(Connect), now1),
     NewPacket(2, Bincode.Serialize(Handshake(Challenge(nonce))), now2)]
  }

  /** The second half of `connect`, once the Challenge carrying `nonce`
      has arrived: echo it, then expect Success. */
  function EchoChallenge(v: ConnView, nonce: u32, now: int): (r: ConnectResult)
    ensures ConnValid(v) ==> ConnValid(r.view)
    ensures |r.view.sent| == |v.sent| + 1 && r.view.sent[..|v.sent|] == v.sent
    ensures r.view.sent[|v.sent|] == NewPacket(v.clientSequence, Bincode.Serialize(Handshake(Challenge(nonce))), now)
    ensures r.view.clientSequence == WrappingInc(v.clientSequence)
    ensures r.outcome in {Established(nonce), Blocked, Panicked}
    ensures r.outcome.Blocked? ==> r.view.inbox == []
    ensures var n := NextSpec(v.serverSequence, Readings(v.inbox));
            && (r.outcome == Blocked <==> n.Pending?)
            && (r.outcome == Established(nonce) <==> n.Delivered? && n.msg == Handshake(Success))
            && (r.outcome == Panicked <==> n.Delivered? && n.msg != Handshake(Success))
  {
    var second := ReceiveConn(SendConn(v, Handshake(Challenge(nonce)), now));
    match second.next
    case Delivered(reply, _, _) =>
      ConnectResult(if reply == Handshake(Success) then Established(nonce) else Panicked, second.view)
    case _ => ConnectResult(Blocked, second.view)
  }

  /** `Conn::connect` after the bind: send Connect, echo the Challenge's
      nonce, expect Success; anything else in either place panics. */
  function ConnectSpec(inbox: seq<Incoming>, now1: int, now2: int): (r: ConnectResult)
    ensures 1 <= |r.view.sent| <= 2 && r.view.sent[0] == NewPacket(1, Bincode.Serialize(Connect), now1)
    ensures r.outcome.Established? ==>
              && r.view.sent == ConnectPackets(r.outcome.nonce, now1, now2)
              && r.view.clientSequence == 3
    ensures r.outcome.Blocked? ==> r.view.inbox == []
  {
    var first := ReceiveConn(SendConn(InitialConn(inbox), Connect, now1));
    assert first.view.sent == [NewPacket(1, Bincode.Serialize(Connect), now1)];
    assert first.view.clientSequence == 2;
    match first.next
    case Delivered(m, _, _) =>
      if m.Handshake? && m.handshake.Challenge? then EchoChallenge(first.view, m.handshake.nonce, now2)
      else ConnectResult(Panicked, first.view)
    case _ => ConnectResult(Blocked, first.view)
  }

  /** The two `next_message` calls of an established `connect`, stated
      over the readings of the inbox alone. */
  lemma EstablishedDeliveries(inbox: seq<Incoming>, now1: int, now2: int) returns (first: Next, second: Next)
    requires ConnectSpec(inbox, now1, now2).outcome.Established?
    ensures first == NextSpec(0, Readings(inbox)) && first.Delivered?
    ensures second == NextSpec(first.sequence, Readings(inbox)[first.consumed..]) && second.Delivered?
    ensures first.msg == Handshake(Challenge(ConnectSpec(inbox, now1, now2).outcome.nonce))
    ensures second.msg == Handshake(Success)
  {
    var one := ReceiveConn(SendConn(InitialConn(inbox), Connect, now1));
    assert one.next.Delivered? && one.next.msg.Handshake? && one.next.msg.handshake.Challenge?;
    var nonce := one.next.msg.handshake.nonce;
    assert ConnectSpec(inbox, now1, now2) == EchoChallenge(one.view, nonce, now2);
    var two := ReceiveConn(SendConn(one.view, Handshake(Challenge(nonce)), now2));
    ReadingsFrom(inbox, one.next.consumed);
    first, second := one.next, two.next;
  }

  /** How `connect` ends, decided by the first `next_message` call over
      the readings of the inbox and, once a Challenge has been echoed, by
      the second one over the readings that follow: blocked for ever when
      the inbox runs out, the panic on any message other than the expected
      one, and Established exactly when the second message is Success. */
  lemma ConnectDecided(inbox: seq<Incoming>, now1: int, now2: int)
    ensures var r := ConnectSpec(inbox, now1, now2).outcome;
            var first := NextSpec(0, Readings(inbox));
            && !first.Panic?
            && (first.Pending? ==> r == Blocked)
            && (first.Delivered? && !(first.msg.Handshake? && first.msg.handshake.Challenge?) ==> r == Panicked)
            && (first.Delivered? && first.msg.Handshake? && first.msg.handshake.Challenge? ==>
                  var second := NextSpec(first.sequence, Readings(inbox)[first.consumed..]);
                  && !second.Panic?
                  && (second.Pending? ==> r == Blocked)
                  && (second.Delivered? ==>
                        (r == Established(first.msg.handshake.nonce) <==> second.msg == Handshake(Success)))
                  && (second.Delivered? && second.msg != Handshake(Success) ==> r == Panicked))
  {
    var first := NextSpec(0, Readings(inbox));
    if first.Delivered? {
      ReadingsFrom(inbox, first.consumed);
    }
  }

  /** The connection is established only after the inbox held a Challenge
      carrying the echoed nonce and, later, a Success with a higher packet
      number. */
  lemma EstablishedMeansAnswered(inbox: seq<Incoming>, now1: int, now2: int)
    requires ConnectSpec(inbox, now1, now2).outcome.Established?
    ensures CarriedInOrder(Readings(inbox), Handshake(Challenge(ConnectSpec(inbox, now1, now2).outcome.nonce)),
                           Handshake(Success))
  {
    var first, second := EstablishedDeliveries(inbox, now1, now2);
    TwoDeliveries(0, Readings(inbox), first, second);
  }

  /** The first message that gets past the guard decides the first half:
      anything but a Challenge, including a premature Success or Failure,
      panics, whatever follows. */
  lemma UnexpectedFirstPanics(inbox: seq<Incoming>, now1: int, now2: int)
    requires ReceiveConn(SendConn(InitialConn(inbox), Connect, now1)).next.Delivered?
    requires var m := ReceiveConn(SendConn(InitialConn(inbox), Connect, now1)).next.msg;
             !(m.Handshake? && m.handshake.Challenge?)
    ensures ConnectSpec(inbox, now1, now2).outcome == Panicked
  {
  }

  /** `recv1` reads back, unchanged, a packet the server encoded. */
  lemma ReadsEncodedPacket(p: Packet, rest: seq<Incoming>)
    requires Encodable(p)
    ensures Readings([Datagram(ToBytes(p))] + rest)[0] == Read(p)
  {
    RoundTrip(p, []);
    assert ToBytes(p) + [] == ToBytes(p);
  }

  /** A fresh, well-formed packet at the head of the inbox is what
      `next_message` returns. */
  lemma ReceivesFreshPacket(lastSeen: u32, p: Packet, m: Message, rest: seq<Incoming>)
    requires lastSeen < p.sequenceNumber && InI64(p.timestamp)
    requires p.message == Bincode.Serialize(m)
    ensures NextSpec(lastSeen, Readings([Datagram(ToBytes(p))] + rest)) == Delivered(m, p.sequenceNumber, 1)
  {
    ReadsEncodedPacket(p, rest);
    Bincode.DeserializeSerialize(m, []);
    assert p.message + [] == p.message;
    assert AcceptMessage(lastSeen, p) == Some(m);
  }

  /** The server's two replies establish the connection with the nonce of
      the Challenge. */
  lemma ConnectHappyPath(challenge: Packet, success: Packet, nonce: u32, now1: int, now2: int)
    requires 0 < challenge.sequenceNumber < success.sequenceNumber
    requires challenge.message == Bincode.Serialize(Handshake(Challenge(nonce)))
    requires success.message == Bincode.Serialize(Handshake(Success))
    requires InI64(challenge.timestamp) && InI64(success.timestamp)
    ensures ConnectSpec([Datagram(ToBytes(challenge)), Datagram(ToBytes(success))], now1, now2)
            == ConnectResult(Established(nonce), ConnView(success.sequenceNumber, 3, ConnectPackets(nonce, now1, now2), []))
  {
    var tail := [Datagram(ToBytes(success))];
    var inbox := [Datagram(ToBytes(challenge))] + tail;
    assert inbox == [Datagram(ToBytes(challenge)), Datagram(ToBytes(success))];
    var connect := NewPacket(1, Bincode.Serialize(Connect), now1);
    var echo := NewPacket(2, Bincode.Serialize(Handshake(Challenge(nonce))), now2);
    var packets := ConnectPackets(nonce, now1, now2);
    assert packets == [connect] + [echo];
    ReceivesFreshPacket(0, challenge, Handshake(Challenge(nonce)), tail);
    var v1 := SendConn(InitialConn(inbox), Connect, now1);
    assert v1 == ConnView(0, 2, [] + [connect], inbox);
    var first := ReceiveConn(v1);
    assert first == Received(Delivered(Handshake(Challenge(nonce)), challenge.sequenceNumber, 1),
                             ConnView(challenge.sequenceNumber, 2, [connect], tail));
    var v2 := SendConn(first.view, Handshake(Challenge(nonce)), now2);
    assert v2 == ConnView(challenge.sequenceNumber, 3, packets, tail);
    ReceivesFreshPacket(challenge.sequenceNumber, success, Handshake(Success), []);
    assert tail + [] == tail;
    var second := ReceiveConn(v2);
    assert second == Received(Delivered(Handshake(Success), success.sequenceNumber, 1),
                              ConnView(success.sequenceNumber, 3, packets, []));
  }

  /** The synchronous `Conn`. */
  class Conn {
    var serverSequence: u32
    var clientSequence: u32
    var sent: seq<Packet>
    var inbox: seq<Incoming>

    function View(): ConnView
      reads this
    {
      ConnView(serverSequence, clientSequence, sent, inbox)
    }

    ghost predicate Valid()
      reads this
    {
      ConnValid(View())
    }

    constructor (inbox: seq<Incoming>)
      ensures View() == InitialConn(inbox) && Valid()
    {
      serverSequence := INITIAL_SERVER_SEQUENCE;
      clientSequence := INITIAL_CLIENT_SEQUENCE;
      sent := [];
      this.inbox := inbox;
    }

    method Send(msg: Message, now: int)
      requires Valid()
      modifies this
      ensures Valid()
      ensures View() == SendConn(old(View()), msg, now)
    {
      var packet := NewPacket(clientSequence, Bincode.Serialize(msg), now);
      sent := sent + [packet];
      clientSequence := WrappingInc(clientSequence);
    }

    method NextMessage() returns (n: Next)
      modifies this
      ensures ReceiveConn(old(View())) == Received(n, View())
    {
      ghost var start := inbox;
      ghost var outcome := NextSpec(serverSequence, Readings(start));
      var consumed: nat := 0;
      while inbox != []
        invariant consumed <= |start| && inbox == start[consumed..]
        invariant sent == old(sent) && clientSequence == old(clientSequence)
        invariant serverSequence == old(serverSequence)
        invariant outcome == Advance(NextSpec(serverSequence, Readings(inbox)), consumed)
        decreases |inbox|
      {
        var item := inbox[0];
        ghost var before := inbox;
        inbox := inbox[1..];
        NextStep(serverSequence, Readings(before), consumed);
        ReadingsFrom(before, 1);
        consumed := consumed + 1;
        match Recv1(item)
        case Unreadable =>
        case Read(packet) =>
          if packet.sequenceNumber > serverSequence {
            match Bincode.Deserialize(packet.message)
            case Some(m) =>
              assert AcceptMessage(serverSequence, packet) == Some(m);
              serverSequence := packet.sequenceNumber;
              return Delivered(m, packet.sequenceNumber, consumed);
            case None =>
          }
      }
      assert Readings(inbox) == [];
      return Pending;
    }

    /** `Conn::connect` after the bind and `connect`; `outcome` is Blocked
        where the call would never return. */
    static method Connect(inbox: seq<Incoming>, now1: int, now2: int) returns (conn: Conn, outcome: ConnectOutcome)
      ensures fresh(conn)
      ensures ConnectSpec(inbox, now1, now2) == ConnectResult(outcome, conn.View())
    {
      conn := new Conn(inbox);
      conn.Send(Message.Connect, now1);
      var n := conn.NextMessage();
      if !n.Delivered? {
        return conn, Blocked;
      }
      if !(n.msg.Handshake? && n.msg.handshake.Challenge?) {
        return conn, Panicked;
      }
      var nonce := n.msg.handshake.nonce;
      conn.Send(Handshake(Challenge(nonce)), now2);
      n := conn.NextMessage();
      if !n.Delivered? {
        return conn, Blocked;
      }
      return conn, if n.msg == Handshake(Success) then Established(nonce) else Panicked;
    }
  }
}
