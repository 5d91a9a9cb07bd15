/** The asynchronous client connection of client/src/conn.rs. The socket is
    replaced by its inputs: `inbox` lists what `recv_from` will yield, in
    order, and each send is told whether `send_to` succeeds. An inbox that
    runs out while `next_message` is still looping means the call never
    completes, which under `connect`'s timeouts is a timeout. */
module AsyncClient {
  import opened Wrappers
  import opened Bytes
  import opened Net
  import opened Proto
  import Bincode
  import opened PacketCodec
  import opened SequenceGuard

  const INITIAL_SERVER_SEQUENCE: u32 := 0
  const INITIAL_CLIENT_SEQUENCE: u32 := 1

  /** One `recv_from` result: an error, or a datagram and its sender. */
  datatype Incoming = RecvError | Datagram(from: SocketAddr, data: seq<byte>)

  /** `recv1`: a datagram from anyone but `remote` is the panic; one from
      `remote` is a packet exactly when it decodes. */
  function Recv1(remote: SocketAddr, item: Incoming): (r: Reading)
    ensures r.Foreign? <==> item.Datagram? && item.from != remote
    ensures r.Read? <==> item.Datagram? && item.from == remote && FromBytes(item.data).Ok?
    ensures r.Read? ==> FromBytes(item.data) == Ok(r.packet)
  {
    match item
    case RecvError => Unreadable
    case Datagram(from, data) =>
      if from != remote then Foreign
      else
        match FromBytes(data)
        case Ok(p) => Read(p)
        case Err(_) => Unreadable
  }

  /** What successive `recv1` calls make of the items, in order. */
  function Readings(remote: SocketAddr, items: seq<Incoming>): (r: seq<Reading>)
    ensures |r| == |items|
  {
    if items == [] then [] else [Recv1(remote, items[0])] + Readings(remote, items[1..])
  }

  lemma {:induction false} ReadingAt(remote: SocketAddr, items: seq<Incoming>, i: nat)
    requires i < |items|
    ensures Readings(remote, items)[i] == Recv1(remote, items[i])
    decreases i
  {
    if i > 0 {
      ReadingAt(remote, items[1..], i - 1);
    }
  }

  lemma {:induction false} ReadingsFrom(remote: SocketAddr, items: seq<Incoming>, k: nat)
    requires k <= |items|
    ensures Readings(remote, items)[k..] == Readings(remote, items[k..])
    decreases k
  {
    if k > 0 {
      ReadingsFrom(remote, items[1..], k - 1);
      assert items[1..][k - 1..] == items[k..];
    }
  }

  /** A connection's state as a value. */
  datatype ConnView = ConnView(
    serverSequence: u32,
    clientSequence: u32,
    sent: seq<Packet>,
    inbox: seq<Incoming>)

  function InitialConn(inbox: seq<Incoming>): ConnView {
    ConnView(INITIAL_SERVER_SEQUENCE, INITIAL_CLIENT_SEQUENCE, [], inbox)
  }

  ghost predicate ConnValid(v: ConnView) {
    Consecutive(v.clientSequence, v.sent)
  }

  /** `send`: the packet carries `client_sequence`, which moves on only
      once `send_to` has succeeded. */
  function SendConn(v: ConnView, msg: Message, now: int, ok: bool): (w: ConnView)
    ensures ConnValid(v) ==> ConnValid(w)
    ensures w.clientSequence == if ok then WrappingInc(v.clientSequence) else v.clientSequence
    ensures ok ==> |w.sent| == |v.sent| + 1 && w.sent[|v.sent|].message == Bincode.Serialize(msg)
    ensures ok ==> w.sent[..|v.sent|] == v.sent
    ensures ok ==> w.sent[|v.sent|] == NewPacket(v.clientSequence, Bincode.Serialize(msg), now)
    ensures w.serverSequence == v.serverSequence && w.inbox == v.inbox
    ensures !ok ==> w == v
  {
    if ok then
      var p := NewPacket(v.clientSequence, Bincode.Serialize(msg), now);
      ConsecutiveExtend(v.clientSequence, v.sent, p);
      v.(sent := v.sent + [p], clientSequence := WrappingInc(v.clientSequence))
    else v
  }

  datatype Received = Received(next: Next, view: ConnView)

  /** `next_message`: the guard loop over the readings of the inbox;
      `server_sequence` moves to the delivered packet's number and is
      otherwise untouched. */
  function ReceiveConn(remote: SocketAddr, v: ConnView): (r: Received)
    ensures r.next == NextSpec(v.serverSequence, Readings(remote, v.inbox))
    ensures r.view.sent == v.sent && r.view.clientSequence == v.clientSequence
    ensures r.next.Delivered? ==> r.view.serverSequence == r.next.sequence > v.serverSequence
    ensures !r.next.Delivered? ==> r.view.serverSequence == v.serverSequence
    ensures r.next.Pending? ==> r.view.inbox == []
    ensures !r.next.Pending? ==> r.next.consumed <= |v.inbox| && r.view.inbox == v.inbox[r.next.consumed..]
  {
    match NextSpec(v.serverSequence, Readings(remote, v.inbox))
    case Pending => Received(Pending, v.(inbox := []))
    case Panic(k) => Received(Panic(k), v.(inbox := v.inbox[k..]))
    case Delivered(m, s, k) => Received(Delivered(m, s, k), v.(serverSequence := s, inbox := v.inbox[k..]))
  }

  /** How `connect` ends. */
  datatype ConnectOutcome =
    | Established(nonce: u32)
    | SendFailed
    | TimedOut
    | HandshakeFailure
    | Panicked

  datatype ConnectResult = ConnectResult(outcome: ConnectOutcome, view: ConnView)

  function ConnectPackets(nonce: u32, now1: int, now2: int): seq<Packet> {
    [NewPacket(1, Bincode.Serialize(Connect), now1),
     NewPacket(2, Bincode.Serialize(Handshake(Challenge(nonce))), now2)]
  }

  /** The second half of `connect`, once the Challenge carrying `nonce`
      has arrived: echo the nonce, then wait for Success. */
  function EchoChallenge(remote: SocketAddr, v: ConnView, nonce: u32, now: int, ok: bool): (r: ConnectResult)
    ensures ConnValid(v) ==> ConnValid(r.view)
    ensures !ok ==> r == ConnectResult(SendFailed, v)
    ensures r.outcome.Established? ==>
              && ok && r.outcome.nonce == nonce
              && r.view.sent == v.sent + [NewPacket(v.clientSequence, Bincode.Serialize(Handshake(Challenge(nonce))), now)]
    ensures r.outcome.TimedOut? ==> r.view.inbox == []
    ensures r.outcome in {Established(nonce), SendFailed, TimedOut, HandshakeFailure, Panicked}
    ensures ok ==> var n := NextSpec(v.serverSequence, Readings(remote, v.inbox));
                   && (r.outcome == TimedOut <==> n.Pending?)
                   && (r.outcome == Panicked <==> n.Panic?)
                   && (r.outcome == Established(nonce) <==> n.Delivered? && n.msg == Handshake(Success))
                   && (r.outcome == HandshakeFailure <==> n.Delivered? && n.msg != Handshake(Success))
  {
    if !ok then ConnectResult(SendFailed, v)
    else
      var second := ReceiveConn(remote, SendConn(v, Handshake(Challenge(nonce)), now, true));
      match second.next
      case Pending => ConnectResult(TimedOut, second.view)
      case Panic(_) => ConnectResult(Panicked, second.view)
      case Delivered(m, _, _) =>
        ConnectResult(if m == Handshake(Success) then Established(nonce) else HandshakeFailure, second.view)
  }

  /** `connect` after the bind: send Connect, wait for a Challenge and echo
      its nonce, then wait for Success. `ok1` and `ok2` say whether the two
      sends succeed; `now1` and `now2` are the clock readings they take. */
  function ConnectSpec(remote: SocketAddr, inbox: seq<Incoming>, now1: int, ok1: bool, now2: int, ok2: bool)
    : (r: ConnectResult)
    ensures r.outcome.Established? ==>
              && ok1 && ok2
              && r.view.sent == ConnectPackets(r.outcome.nonce, now1, now2)
              && r.view.clientSequence == 3
    ensures !ok1 ==> r == ConnectResult(SendFailed, InitialConn(inbox))
    ensures r.outcome.SendFailed? ==> !ok1 || !ok2
    ensures r.outcome.TimedOut? ==> r.view.inbox == []
    ensures |r.view.sent| >= 1 ==> r.view.sent[0] == NewPacket(1, Bincode.Serialize(Connect), now1)
  {
    if !ok1 then ConnectResult(SendFailed, InitialConn(inbox))
    else
      var first := ReceiveConn(remote, SendConn(InitialConn(inbox), Connect, now1, true));
      assert first.view.sent == [NewPacket(1, Bincode.Serialize(Connect), now1)];
      assert first.view.clientSequence == 2;
      match first.next
      case Pending => ConnectResult(TimedOut, first.view)
      case Panic(_) => ConnectResult(Panicked, first.view)
      case Delivered(m, _, _) =>
        if m.Handshake? && m.handshake.Challenge? then
          EchoChallenge(remote, first.view, m.handshake.nonce, now2, ok2)
        else ConnectResult(HandshakeFailure, first.view)
  }

  /** The two `next_message` calls of an established `connect`, stated
      over the readings of the inbox alone. */
  lemma EstablishedDeliveries(remote: SocketAddr, inbox: seq<Incoming>, now1: int, ok1: bool, now2: int, ok2: bool)
    returns (first: Next, second: Next)
    requires ConnectSpec(remote, inbox, now1, ok1, now2, ok2).outcome.Established?
    ensures first == NextSpec(0, Readings(remote, inbox)) && first.Delivered?
    ensures second == NextSpec(first.sequence, Readings(remote, inbox)[first.consumed..]) && second.Delivered?
    ensures first.msg == Handshake(Challenge(ConnectSpec(remote, inbox, now1, ok1, now2, ok2).outcome.nonce))
    ensures second.msg == Handshake(Success)
  {
    var r := ConnectSpec(remote, inbox, now1, ok1, now2, ok2);
    var one := ReceiveConn(remote, SendConn(InitialConn(inbox), Connect, now1, true));
    assert one.next.Delivered? && one.next.msg.Handshake? && one.next.msg.handshake.Challenge?;
    var nonce := one.next.msg.handshake.nonce;
    assert r == EchoChallenge(remote, one.view, nonce, now2, ok2);
    var two := ReceiveConn(remote, SendConn(one.view, Handshake(Challenge(nonce)), now2, true));
    ReadingsFrom(remote, inbox, one.next.consumed);
    first, second := one.next, two.next;
  }

  /** How `connect` ends, decided by the first `next_message` call over
      the readings of the inbox and, once a Challenge has been echoed, by
      the second one over the readings that follow: a timeout when the
      inbox runs out, the panic on a stranger, HandshakeFailure on any
      message other than the expected one, and Established exactly when
      the second message is Success. */
  lemma ConnectDecided(remote: SocketAddr, inbox: seq<Incoming>, now1: int, ok1: bool, now2: int, ok2: bool)
    ensures var r := ConnectSpec(remote, inbox, now1, ok1, now2, ok2).outcome;
            var first := NextSpec(0, Readings(remote, inbox));
            && (!ok1 ==> r == SendFailed)
            && (ok1 && first.Pending? ==> r == TimedOut)
            && (ok1 && first.Panic? ==> r == Panicked)
            && (ok1 && first.Delivered? && !(first.msg.Handshake? && first.msg.handshake.Challenge?) ==>
                  r == HandshakeFailure)
            && (ok1 && first.Delivered? && first.msg.Handshake? && first.msg.handshake.Challenge? ==>
                  var second := NextSpec(first.sequence, Readings(remote, inbox)[first.consumed..]);
                  && (!ok2 ==> r == SendFailed)
                  && (ok2 && second.Pending? ==> r == TimedOut)
                  && (ok2 && second.Panic? ==> r == Panicked)
                  && (ok2 && second.Delivered? ==>
                        (r == Established(first.msg.handshake.nonce) <==> second.msg == Handshake(Success)))
                  && (ok2 && second.Delivered? && second.msg != Handshake(Success) ==> r == HandshakeFailure))
  {
    var first := NextSpec(0, Readings(remote, inbox));
    if ok1 && first.Delivered? {
      ReadingsFrom(remote, inbox, first.consumed);
    }
  }

  /** A connection is established only after the inbox held, from
      `remote`, a Challenge carrying the echoed nonce and, later, a Success
      with a higher packet number. */
  lemma EstablishedMeansAnswered(remote: SocketAddr, inbox: seq<Incoming>, now1: int, ok1: bool, now2: int, ok2: bool)
    requires ConnectSpec(remote, inbox, now1, ok1, now2, ok2).outcome.Established?
    ensures CarriedInOrder(Readings(remote, inbox),
                           Handshake(Challenge(ConnectSpec(remote, inbox, now1, ok1, now2, ok2).outcome.nonce)),
                           Handshake(Success))
  {
    var first, second := EstablishedDeliveries(remote, inbox, now1, ok1, now2, ok2);
    TwoDeliveries(0, Readings(remote, inbox), first, second);
  }

  /** A datagram from a stranger that arrives first makes `connect` panic,
      whatever follows it. */
  lemma StrangerPanics(remote: SocketAddr, stranger: SocketAddr, data: seq<byte>, rest: seq<Incoming>,
                       now1: int, now2: int, ok2: bool)
    requires stranger != remote
    ensures ConnectSpec(remote, [Datagram(stranger, data)] + rest, now1, true, now2, ok2).outcome == Panicked
  {
    var inbox := [Datagram(stranger, data)] + rest;
    assert Readings(remote, inbox)[0] == Foreign;
  }

  /** `recv1` reads back, unchanged, a packet that `remote` encoded. */
  lemma ReadsEncodedPacket(remote: SocketAddr, p: Packet, rest: seq<Incoming>)
    requires Encodable(p)
    ensures Readings(remote, [Datagram(remote, ToBytes(p))] + rest)[0] == Read(p)
  {
    RoundTrip(p, []);
    assert ToBytes(p) + [] == ToBytes(p);
  }

  /** A fresh, well-formed packet from `remote` at the head of the inbox
      is what `next_message` returns. */
  lemma ReceivesFreshPacket(remote: SocketAddr, lastSeen: u32, p: Packet, m: Message, rest: seq<Incoming>)
    requires lastSeen < p.sequenceNumber && InI64(p.timestamp)
    requires p.message == Bincode.Serialize(m)
    ensures NextSpec(lastSeen, Readings(remote, [Datagram(remote, ToBytes(p))] + rest))
            == Delivered(m, p.sequenceNumber, 1)
  {
    ReadsEncodedPacket(remote, p, rest);
    Bincode.DeserializeSerialize(m, []);
    assert p.message + [] == p.message;
    assert AcceptMessage(lastSeen, p) == Some(m);
  }

  /** The server's two replies, received in order, establish the
      connection with the nonce of the Challenge; the client's packets are
      Connect numbered 1 and the echo numbered 2. */
  lemma ConnectHappyPath(remote: SocketAddr, challenge: Packet, success: Packet, nonce: u32,
                         now1: int, now2: int)
    requires 0 < challenge.sequenceNumber < success.sequenceNumber
    requires challenge.message == Bincode.Serialize(Handshake(Challenge(nonce)))
    requires success.message == Bincode.Serialize(Handshake(Success))
    requires InI64(challenge.timestamp) && InI64(success.timestamp)
    ensures var inbox := [Datagram(remote, ToBytes(challenge)), Datagram(remote, ToBytes(success))];
            var r := ConnectSpec(remote, inbox, now1, true, now2, true);
            r == ConnectResult(Established(nonce),
                               ConnView(success.sequenceNumber, 3, ConnectPackets(nonce, now1, now2), []))
  {
    var tail := [Datagram(remote, ToBytes(success))];
    var inbox := [Datagram(remote, ToBytes(challenge))] + tail;
    assert inbox == [Datagram(remote, ToBytes(challenge)), Datagram(remote, ToBytes(success))];
    var connect := NewPacket(1, Bincode.Serialize(Connect), now1);
    var echo := NewPacket(2, Bincode.Serialize(Handshake(Challenge(nonce))), now2);
    var packets := ConnectPackets(nonce, now1, now2);
    assert packets == [connect] + [echo];
    ReceivesFreshPacket(remote, 0, challenge, Handshake(Challenge(nonce)), tail);
    var v1 := SendConn(InitialConn(inbox), Connect, now1, true);
    assert v1 == ConnView(0, 2, [] + [connect], inbox);
    var first := ReceiveConn(remote, v1);
    assert first == Received(Delivered(Handshake(Challenge(nonce)), challenge.sequenceNumber, 1),
                             ConnView(challenge.sequenceNumber, 2, [connect], tail));
    var v2 := SendConn(first.view, Handshake(Challenge(nonce)), now2, true);
    assert v2 == ConnView(challenge.sequenceNumber, 3, packets, tail);
    ReceivesFreshPacket(remote, challenge.sequenceNumber, success, Handshake(Success), []);
    assert tail + [] == tail;
    var second := ReceiveConn(remote, v2);
    assert second == Received(Delivered(Handshake(Success), success.sequenceNumber, 1),
                              ConnView(success.sequenceNumber, 3, packets, []));
  }

  /** A `Conn`: the two counters, with the socket standing as the packets
      `send_to` accepted (`sent`) and what `recv_from` has yet to yield
      (`inbox`). */
  class Conn {
    const remote: SocketAddr
    var serverSequence: u32
    var clientSequence: u32
    var sent: seq<Packet>
    var inbox: seq<Incoming>

    function View(): ConnView
      reads this
    {
      ConnView(serverSequence, clientSequence, sent, inbox)
    }

    ghost predicate Valid()
      reads this
    {
      ConnValid(View())
    }

    /** The struct built by `connect` right after the bind. */
    constructor (remote: SocketAddr, inbox: seq<Incoming>)
      ensures this.remote == remote && View() == InitialConn(inbox) && Valid()
    {
      this.remote := remote;
      serverSequence := INITIAL_SERVER_SEQUENCE;
      clientSequence := INITIAL_CLIENT_SEQUENCE;
      sent := [];
      this.inbox := inbox;
    }

    method Send(msg: Message, now: int, sendOk: bool) returns (ok: bool)
      requires Valid()
      modifies this
      ensures Valid()
      ensures ok == sendOk
      ensures View() == SendConn(old(View()), msg, now, sendOk)
    {
      var packet := NewPacket(clientSequence, Bincode.Serialize(msg), now);
      if !sendOk {
        return false;
      }
      sent := sent + [packet];
      clientSequence := WrappingInc(clientSequence);
      return true;
    }

    method NextMessage() returns (n: Next)
      modifies this
      ensures ReceiveConn(remote, old(View())) == Received(n, View())
    {
      ghost var start := inbox;
      ghost var outcome := NextSpec(serverSequence, Readings(remote, start));
      var consumed: nat := 0;
      while inbox != []
        invariant consumed <= |start| && inbox == start[consumed..]
        invariant sent == old(sent) && clientSequence == old(clientSequence)
        invariant serverSequence == old(serverSequence)
        invariant outcome == Advance(NextSpec(serverSequence, Readings(remote, inbox)), consumed)
        decreases |inbox|
      {
        var item := inbox[0];
        ghost var before := inbox;
        inbox := inbox[1..];
        NextStep(serverSequence, Readings(remote, before), consumed);
        ReadingsFrom(remote, before, 1);
        consumed := consumed + 1;
        match Recv1(remote, item)
        case Foreign =>
          return Panic(consumed);
        case Unreadable =>
        case Read(packet) =>
          if packet.sequenceNumber > serverSequence {
            match Bincode.Deserialize(packet.message)
            case Some(m) =>
              assert AcceptMessage(serverSequence, packet) == Some(m);
              serverSequence := packet.sequenceNumber;
              return Delivered(m, packet.sequenceNumber, consumed);
            case None =>
          }
      }
      assert Readings(remote, inbox) == [];
      return Pending;
    }

    /** `Conn::connect` after the bind; `conn` is the connection's state
        when `connect` returns, whatever the outcome. */
    static method Connect(remote: SocketAddr, inbox: seq<Incoming>, now1: int, ok1: bool, now2: int, ok2: bool)
      returns (conn: Conn, outcome: ConnectOutcome)
      ensures fresh(conn) && conn.remote == remote
      ensures ConnectSpec(remote, inbox, now1, ok1, now2, ok2) == ConnectResult(outcome, conn.View())
    {
      conn := new Conn(remote, inbox);
      var ok := conn.Send(Message.Connect, now1, ok1);
      if !ok {
        return conn, SendFailed;
      }
      var n := conn.NextMessage();
      match n
      case Pending =>
        return conn, TimedOut;
      case Panic(_) =>
        return conn, Panicked;
      case Delivered(m, _, _) =>
        if !(m.Handshake? && m.handshake.Challenge?) {
          return conn, HandshakeFailure;
        }
        var nonce := m.handshake.nonce;
        ok := conn.Send(Handshake(Challenge(nonce)), now2, ok2);
        if !ok {
          return conn, SendFailed;
        }
        n := conn.NextMessage();
        match n
        case Pending =>
          return conn, TimedOut;
        case Panic(_) =>
          return conn, Panicked;
        case Delivered(reply, _, _) =>
          return conn, if reply == Handshake(Success) then Established(nonce) else HandshakeFailure;
    }
  }
}
