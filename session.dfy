/** The per-peer actor of server/src/session.rs. The thread and its channel
    are replaced by a sequence of mailbox entries processed in order; each
    entry carries what the environment supplies while it is handled. */
module ServerSession {
  import opened Wrappers
  import opened Bytes
  import opened Net
  import opened Proto
  import Bincode
  import opened PacketCodec
  import opened SequenceGuard

  const INITIAL_CLIENT_SEQUENCE: u32 := 0
  const INITIAL_SERVER_SEQUENCE: u32 := 1

  datatype SessionMessage = Send(msg: Message) | Recv(packet: Packet) | Stop

  /** A mailbox entry, with the nonce `random::<u32>()` would draw while it
      is handled, the clock reading stamped on any packet sent, and whether
      `send_to` succeeds. */
  datatype Delivery = Delivery(msg: SessionMessage, nonce: u32, now: int, sendOk: bool)

  /** A handshake step: the next state and the handshake reply, if any. */
  datatype Transition = Transition(next: HandshakeState, reply: Option<HandshakeMessage>)

  /** `on_connect`: only a disconnected session starts negotiating; a
      duplicate connect, or one on a connected session, changes nothing. */
  function ConnectTransition(h: HandshakeState, nonce: u32): (t: Transition)
    ensures t.reply.Some? <==> t.next != h
    ensures t.next != h <==> h == Disconnected
    ensures t.next != h ==> t.next == Negotiating(nonce) && t.reply == Some(Challenge(nonce))
  {
    if h == Disconnected then Transition(Negotiating(nonce), Some(Challenge(nonce)))
    else Transition(h, None)
  }

  /** `on_handshake_message`: while negotiating, the echoed nonce decides;
      every other (state, message) pair is ignored. */
  function HandshakeTransition(h: HandshakeState, m: HandshakeMessage): (t: Transition)
    ensures t.reply.Some? <==> t.next != h
    ensures t.next != h <==> h.Negotiating? && m.Challenge?
    ensures (t.next == Connected && h != Connected) <==> h.Negotiating? && m == Challenge(h.nonce)
    ensures t.reply == Some(Success) <==> h.Negotiating? && m == Challenge(h.nonce)
    ensures t.reply == Some(Failure) <==> h.Negotiating? && m.Challenge? && m.nonce != h.nonce
    ensures t.next != h && t.next != Connected ==> t.next == Disconnected
  {
    match (h, m)
    case (Negotiating(nonce), Challenge(ack)) =>
      if nonce == ack then Transition(Connected, Some(Success))
      else Transition(Disconnected, Some(Failure))
    case _ => Transition(h, None)
  }

  /** The session's mutable protocol state as a value; `sent` lists the
      packets `send_to` accepted, in order. */
  datatype SessionView = SessionView(
    clientSequence: u32,
    serverSequence: u32,
    handshake: HandshakeState,
    sent: seq<Packet>)

  function InitialView(): SessionView {
    SessionView(INITIAL_CLIENT_SEQUENCE, INITIAL_SERVER_SEQUENCE, Disconnected, [])
  }

  /** The packets that left carry consecutive numbers from 1, and
      `server_sequence` is the number the next one will carry. */
  ghost predicate SendsConsecutive(v: SessionView) {
    Consecutive(v.serverSequence, v.sent)
  }

  /** `send`: the packet is stamped with `server_sequence`, which moves on
      only once `send_to` has succeeded. */
  function SendView(v: SessionView, msg: Message, now: int, ok: bool): (w: SessionView)
    ensures SendsConsecutive(v) ==> SendsConsecutive(w)
    ensures ok ==> |w.sent| == |v.sent| + 1 && w.sent[|v.sent|].message == Bincode.Serialize(msg)
    ensures ok ==> w.sent[..|v.sent|] == v.sent
    ensures ok ==> w.sent[|v.sent|] == NewPacket(v.serverSequence, Bincode.Serialize(msg), now)
    ensures ok ==> w.serverSequence == WrappingInc(v.serverSequence)
    ensures w.clientSequence == v.clientSequence && w.handshake == v.handshake
    ensures !ok ==> w == v
  {
    if ok then
      var p := NewPacket(v.serverSequence, Bincode.Serialize(msg), now);
      ConsecutiveExtend(v.serverSequence, v.sent, p);
      v.(sent := v.sent + [p], serverSequence := WrappingInc(v.serverSequence))
    else v
  }

  function ReplyView(v: SessionView, reply: Option<HandshakeMessage>, now: int, ok: bool): SessionView {
    match reply
    case None => v
    case Some(m) => SendView(v, Handshake(m), now, ok)
  }

  datatype Halt = Stopped | Panicked

  datatype StepResult = Continue(view: SessionView) | Halted(view: SessionView, why: Halt)

  /** Whether handling d takes its packet past the anti-replay guard. */
  predicate TakesPacket(v: SessionView, d: Delivery) {
    d.msg.Recv? && Accepts(v.clientSequence, d.msg.packet.sequenceNumber)
  }

  /** One iteration of `act`. The `unwrap()`s become `Panicked`: on a body
      that does not deserialise, and on a failed send of a heartbeat reply
      or of a queued `Send`. Failed handshake replies are ignored. */
  function Step(v: SessionView, d: Delivery): (r: StepResult)
    ensures d.msg.Stop? ==> r == Halted(v, Stopped)
    ensures d.msg.Recv? && !TakesPacket(v, d) ==> r == Continue(v)
    ensures TakesPacket(v, d) ==> r.view.clientSequence == d.msg.packet.sequenceNumber
    ensures !TakesPacket(v, d) ==> r.view.clientSequence == v.clientSequence
    ensures r.view.clientSequence >= v.clientSequence
    ensures SendsConsecutive(v) ==> SendsConsecutive(r.view)
    ensures |v.sent| <= |r.view.sent| <= |v.sent| + 1 && r.view.sent[..|v.sent|] == v.sent
    ensures r == Halted(r.view, Panicked) <==>
              || (d.msg.Send? && !d.sendOk)
              || (TakesPacket(v, d) && Bincode.Deserialize(d.msg.packet.message).None?)
              || (TakesPacket(v, d) && Bincode.Deserialize(d.msg.packet.message) == Some(Heartbeat) && !d.sendOk)
    ensures d.msg.Send? && d.sendOk ==> r == Continue(SendView(v, d.msg.msg, d.now, true))
    ensures TakesPacket(v, d) && Bincode.Deserialize(d.msg.packet.message) == Some(Heartbeat) && d.sendOk ==>
              r == Continue(v.(clientSequence := d.msg.packet.sequenceNumber,
                               sent := v.sent + [NewPacket(v.serverSequence, Bincode.Serialize(Heartbeat), d.now)],
                               serverSequence := WrappingInc(v.serverSequence)))
    ensures TakesPacket(v, d) && Bincode.Deserialize(d.msg.packet.message) == Some(Connect) ==>
              var t := ConnectTransition(v.handshake, d.nonce);
              r == Continue(ReplyView(v.(clientSequence := d.msg.packet.sequenceNumber, handshake := t.next),
                                      t.reply, d.now, d.sendOk))
    ensures TakesPacket(v, d) && Bincode.Deserialize(d.msg.packet.message).Some?
            && Bincode.Deserialize(d.msg.packet.message).value.Handshake? ==>
              var t := HandshakeTransition(v.handshake, Bincode.Deserialize(d.msg.packet.message).value.handshake);
              r == Continue(ReplyView(v.(clientSequence := d.msg.packet.sequenceNumber, handshake := t.next),
                                      t.reply, d.now, d.sendOk))
  {
    match d.msg
    case Stop => Halted(v, Stopped)
    case Send(msg) =>
      if d.sendOk then Continue(SendView(v, msg, d.now, true)) else Halted(v, Panicked)
    case Recv(packet) =>
      if !Accepts(v.clientSequence, packet.sequenceNumber) then Continue(v)
      else
        var v := v.(clientSequence := packet.sequenceNumber);
        match Bincode.Deserialize(packet.message)
        case None => Halted(v, Panicked)
        case Some(Connect) =>
          var t := ConnectTransition(v.handshake, d.nonce);
          Continue(ReplyView(v.(handshake := t.next), t.reply, d.now, d.sendOk))
        case Some(Handshake(m)) =>
          var t := HandshakeTransition(v.handshake, m);
          Continue(ReplyView(v.(handshake := t.next), t.reply, d.now, d.sendOk))
        case Some(Heartbeat) =>
          if d.sendOk then Continue(SendView(v, Heartbeat, d.now, true)) else Halted(v, Panicked)
  }

  datatype RunResult = RunResult(view: SessionView, halt: Option<Halt>, processed: nat)

  /** `act` over a whole mailbox: entries are handled in order until a
      `Stop`, a panic, or the end of the mailbox (the channel closing). */
  function Run(v: SessionView, mailbox: seq<Delivery>): (r: RunResult)
    ensures r.processed <= |mailbox|
    ensures r.halt.None? ==> r.processed == |mailbox|
    ensures r.halt.Some? ==> r.processed >= 1
    ensures r.halt == Some(Stopped) ==> mailbox[r.processed - 1].msg.Stop?
    ensures forall i :: 0 <= i < r.processed - 1 ==> !mailbox[i].msg.Stop?
    ensures r.view.clientSequence >= v.clientSequence
    ensures SendsConsecutive(v) ==> SendsConsecutive(r.view)
    decreases |mailbox|
  {
    if mailbox == [] then RunResult(v, None, 0)
    else
      match Step(v, mailbox[0])
      case Halted(w, why) => RunResult(w, Some(why), 1)
      case Continue(w) =>
        var r := Run(w, mailbox[1..]);
        RunResult(r.view, r.halt, r.processed + 1)
  }

  /** A run that halts halts on its last processed entry: every entry
      before it let the run go on, and that entry's own step is the Stop
      or the panic, leaving the final state. */
  lemma {:induction false} RunHaltsAt(v: SessionView, mailbox: seq<Delivery>)
    requires Run(v, mailbox).halt.Some?
    ensures var r := Run(v, mailbox);
            var before := Run(v, mailbox[..r.processed - 1]);
            && before.halt.None?
            && Step(before.view, mailbox[r.processed - 1]) == Halted(r.view, r.halt.value)
    decreases |mailbox|
  {
    var r := Run(v, mailbox);
    match Step(v, mailbox[0])
    case Halted(_, _) =>
      assert mailbox[..0] == [];
    case Continue(w) =>
      RunHaltsAt(w, mailbox[1..]);
      var k := r.processed - 1;
      assert mailbox[..k][0] == mailbox[0] && mailbox[..k][1..] == mailbox[1..][..k - 1];
      assert mailbox[1..][k - 1] == mailbox[k];
  }

  /** The sequence numbers of the packets a run lets past the guard, in the
      order it handles them: strictly increasing and all beyond the
      starting `client_sequence`, so no packet number is ever handled twice. */
  function TakenNumbers(v: SessionView, mailbox: seq<Delivery>): (s: seq<u32>)
    ensures forall i, j :: 0 <= i < j < |s| ==> s[i] < s[j]
    ensures forall i :: 0 <= i < |s| ==> s[i] > v.clientSequence
    decreases |mailbox|
  {
    if mailbox == [] then []
    else
      var d := mailbox[0];
      var taken := if TakesPacket(v, d) then [d.msg.packet.sequenceNumber] else [];
      match Step(v, d)
      case Halted(_, _) => taken
      case Continue(w) => taken + TakenNumbers(w, mailbox[1..])
  }

  /** Nothing queued after a `Stop` is handled. */
  lemma {:induction false} NothingAfterStop(v: SessionView, before: seq<Delivery>, stop: Delivery, after: seq<Delivery>)
    requires stop.msg.Stop?
    ensures Run(v, before + [stop] + after) == Run(v, before + [stop])
    decreases |before|
  {
    var long := before + [stop] + after;
    var short := before + [stop];
    if before == [] {
      assert long[0] == stop && short[0] == stop;
    } else {
      assert long[0] == before[0] && short[0] == before[0];
      assert long[1..] == before[1..] + [stop] + after;
      assert short[1..] == before[1..] + [stop];
      match Step(v, before[0])
      case Halted(_, _) =>
      case Continue(w) => NothingAfterStop(w, before[1..], stop, after);
    }
  }

  /** A client's Connect and its echo of the challenged nonce bring a new
      session to Connected, answering with Challenge(nonce) and then Success
      in packets numbered 1 and 2. */
  lemma HandshakeHappyPath(connect: Packet, echo: Packet, nonce: u32, other: u32, t1: int, t2: int)
    requires connect.sequenceNumber == 1 && connect.message == Bincode.Serialize(Connect)
    requires echo.sequenceNumber == 2
    requires echo.message == Bincode.Serialize(Handshake(Challenge(nonce)))
    ensures var r := Run(InitialView(), [Delivery(Recv(connect), nonce, t1, true),
                                         Delivery(Recv(echo), other, t2, true)]);
            && r.halt.None?
            && r.view.handshake == Connected
            && r.view.clientSequence == 2
            && r.view.sent == [NewPacket(1, Bincode.Serialize(Handshake(Challenge(nonce))), t1),
                               NewPacket(2, Bincode.Serialize(Handshake(Success)), t2)]
  {
    var mailbox := [Delivery(Recv(connect), nonce, t1, true), Delivery(Recv(echo), other, t2, true)];
    Bincode.DeserializeSerialize(Connect, []);
    Bincode.DeserializeSerialize(Handshake(Challenge(nonce)), []);
    assert Bincode.Serialize(Connect) + [] == Bincode.Serialize(Connect);
    assert Bincode.Serialize(Handshake(Challenge(nonce))) + [] == Bincode.Serialize(Handshake(Challenge(nonce)));
    var p1 := NewPacket(1, Bincode.Serialize(Handshake(Challenge(nonce))), t1);
    var p2 := NewPacket(2, Bincode.Serialize(Handshake(Success)), t2);
    var v1 := SessionView(1, 2, Negotiating(nonce), [p1]);
    var v2 := SessionView(2, 3, Connected, [p1, p2]);
    assert Step(InitialView(), mailbox[0]) == Continue(v1);
    assert Step(v1, mailbox[1]) == Continue(v2);
    assert mailbox[1..] == [mailbox[1]];
    assert mailbox[1..][1..] == [];
    assert Run(v1, mailbox[1..]) == RunResult(v2, None, 1);
  }

  /** One peer's session. `sent` stands for the socket: the packets
      `send_to` accepted, in order. */
  class Session {
    const remote: SocketAddr
    var clientSequence: u32
    var serverSequence: u32
    var handshake: HandshakeState
    var sent: seq<Packet>

    function View(): SessionView
      reads this
    {
      SessionView(clientSequence, serverSequence, handshake, sent)
    }

    ghost predicate Valid()
      reads this
    {
      SendsConsecutive(View())
    }

    /** `Session::create` (without the thread and channel). */
    constructor Create(remote: SocketAddr)
      ensures this.remote == remote && Valid()
      ensures View() == InitialView()
    {
      this.remote := remote;
      clientSequence := INITIAL_CLIENT_SEQUENCE;
      serverSequence := INITIAL_SERVER_SEQUENCE;
      handshake := Disconnected;
      sent := [];
    }

    method Send(msg: Message, now: int, sendOk: bool) returns (ok: bool)
      requires Valid()
      modifies this
      ensures Valid()
      ensures ok == sendOk
      ensures View() == SendView(old(View()), msg, now, sendOk)
      ensures sendOk ==> sent == old(sent) + [NewPacket(old(serverSequence), Bincode.Serialize(msg), now)]
                         && serverSequence == WrappingInc(old(serverSequence))
      ensures !sendOk ==> sent == old(sent) && serverSequence == old(serverSequence)
      ensures clientSequence == old(clientSequence) && handshake == old(handshake)
    {
      var packet := NewPacket(serverSequence, Bincode.Serialize(msg), now);
      if !sendOk {
        return false;
      }
      sent := sent + [packet];
      serverSequence := WrappingInc(serverSequence);
      return true;
    }

    method OnConnect(nonce: u32, now: int, sendOk: bool)
      requires Valid()
      modifies this
      ensures Valid()
      ensures var t := ConnectTransition(old(handshake), nonce);
              View() == ReplyView(old(View()).(handshake := t.next), t.reply, now, sendOk)
      ensures handshake == ConnectTransition(old(handshake), nonce).next
    {
      if handshake == Disconnected {
        handshake := Negotiating(nonce);
        var _ := Send(Handshake(Challenge(nonce)), now, sendOk);
      }
    }

    method OnHandshakeMessage(msg: HandshakeMessage, now: int, sendOk: bool)
      requires Valid()
      modifies this
      ensures Valid()
      ensures var t := HandshakeTransition(old(handshake), msg);
              View() == ReplyView(old(View()).(handshake := t.next), t.reply, now, sendOk)
      ensures handshake == HandshakeTransition(old(handshake), msg).next
    {
      match (handshake, msg)
      case (Negotiating(nonce), Challenge(ack)) =>
        if nonce == ack {
          handshake := Connected;
          var _ := Send(Handshake(Success), now, sendOk);
        } else {
          handshake := Disconnected;
          var _ := Send(Handshake(Failure), now, sendOk);
        }
      case _ =>
    }

    /** One iteration of `act`'s loop; `halt` tells whether the loop ends. */
    method Handle(d: Delivery) returns (halt: Option<Halt>)
      requires Valid()
      modifies this
      ensures Valid()
      ensures Step(old(View()), d) == if halt.None? then Continue(View()) else Halted(View(), halt.value)
    {
      match d.msg
      case Stop =>
        return Some(Stopped);
      case Recv(packet) =>
        if packet.sequenceNumber > clientSequence {
          clientSequence := packet.sequenceNumber;
          match Bincode.Deserialize(packet.message)
          case None =>
            return Some(Panicked);
          case Some(Connect) =>
            OnConnect(d.nonce, d.now, d.sendOk);
          case Some(Handshake(m)) =>
            OnHandshakeMessage(m, d.now, d.sendOk);
          case Some(Heartbeat) =>
            var ok := Send(Heartbeat, d.now, d.sendOk);
            if !ok {
              return Some(Panicked);
            }
        }
        return None;
      case Send(msg) =>
        var ok := Send(msg, d.now, d.sendOk);
        return if ok then None else Some(Panicked);
    }

    /** `act`: drains the mailbox. */
    method Act(mailbox: seq<Delivery>) returns (halt: Option<Halt>, processed: nat)
      requires Valid()
      modifies this
      ensures Valid()
      ensures Run(old(View()), mailbox) == RunResult(View(), halt, processed)
    {
      var i := 0;
      while i < |mailbox|
        invariant 0 <= i <= |mailbox|
        invariant Valid()
        invariant var r := Run(View(), mailbox[i..]);
                  Run(old(View()), mailbox) == RunResult(r.view, r.halt, r.processed + i)
      {
        assert mailbox[i..][0] == mailbox[i] && mailbox[i..][1..] == mailbox[i + 1..];
        var h := Handle(mailbox[i]);
        if h.Some? {
          return h, i + 1;
        }
        i := i + 1;
      }
      return None, i;
    }
  }
}
