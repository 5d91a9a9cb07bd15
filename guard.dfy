/** The two rules every direction of the protocol applies to sequence
    numbers. Outgoing packets are numbered consecutively from 1, wrapping
    at 2^32. Incoming packets pass an anti-replay guard: one is taken only
    if its number is beyond the last one taken in that direction (gaps are
    fine, repeats and older numbers are not). Both clients' `next_message`
    loops are that guard run over whatever the socket yields. */
module SequenceGuard {
  import opened Wrappers
  import opened Bytes
  import opened Proto
  import Bincode
  import opened PacketCodec

  /** The packets sent so far carry consecutive numbers from 1 (modulo
      2^32), and `next` is the number the next one will carry. */
  ghost predicate Consecutive(next: u32, sent: seq<Packet>) {
    && next == (1 + |sent|) % U32_LIMIT
    && forall i :: 0 <= i < |sent| ==> sent[i].sequenceNumber == (1 + i) % U32_LIMIT
  }

  lemma WrappingIncMod(n: nat)
    ensures WrappingInc(n % U32_LIMIT) == (n + 1) % U32_LIMIT
  {
  }

  /** Sending the packet numbered `next` and moving the counter on with a
      wrapping increment keeps the numbering consecutive. */
  lemma ConsecutiveExtend(next: u32, sent: seq<Packet>, p: Packet)
    ensures Consecutive(next, sent) && p.sequenceNumber == next ==> Consecutive(WrappingInc(next), sent + [p])
  {
    WrappingIncMod(1 + |sent|);
  }

  predicate Accepts(lastSeen: u32, incoming: u32) {
    incoming > lastSeen
  }

  /** What a `next_message` loop makes of one decoded packet: the message,
      if the packet is fresh and its body deserialises. */
  function AcceptMessage(lastSeen: u32, p: Packet): (r: Option<Message>)
    ensures r.Some? <==> Accepts(lastSeen, p.sequenceNumber) && Bincode.Deserialize(p.message).Some?
    ensures r.Some? ==> r == Bincode.Deserialize(p.message)
  {
    if Accepts(lastSeen, p.sequenceNumber) then Bincode.Deserialize(p.message) else None
  }

  /** One `recv1` call as `next_message` sees it: a packet, a failure it
      swallows (a receive error or a datagram that does not decode), or a
      datagram from a stranger, on which the asynchronous client panics. */
  datatype Reading = Read(packet: Packet) | Unreadable | Foreign

  /** How a `next_message` call ends, with the number of readings it used:
      a message, a panic, or never (the readings run out while it is still
      looping; the caller blocks, or its timeout fires). */
  datatype Next =
    | Delivered(msg: Message, sequence: u32, consumed: nat)
    | Panic(consumed: nat)
    | Pending

  function Advance(n: Next, k: nat): Next {
    match n
    case Delivered(msg, sequence, consumed) => Delivered(msg, sequence, consumed + k)
    case Panic(consumed) => Panic(consumed + k)
    case Pending => Pending
  }

  /** A reading the loop passes over without changing anything. */
  predicate Skipped(lastSeen: u32, r: Reading) {
    r.Unreadable? || (r.Read? && AcceptMessage(lastSeen, r.packet).None?)
  }

  /** The `next_message` loop over a run of readings, with `lastSeen` the
      `server_sequence` it started from (it changes only when the loop
      returns). The first reading that is not skipped decides: it is the
      message returned, or the panic. */
  function NextSpec(lastSeen: u32, readings: seq<Reading>): (r: Next)
    ensures r.Delivered? ==>
              && 1 <= r.consumed <= |readings|
              && readings[r.consumed - 1].Read?
              && readings[r.consumed - 1].packet.sequenceNumber == r.sequence
              && Accepts(lastSeen, r.sequence)
              && Bincode.Deserialize(readings[r.consumed - 1].packet.message) == Some(r.msg)
    ensures r.Panic? ==> 1 <= r.consumed <= |readings| && readings[r.consumed - 1].Foreign?
    ensures !r.Pending? ==> forall i :: 0 <= i < r.consumed - 1 ==> Skipped(lastSeen, readings[i])
    ensures r.Pending? <==> forall i :: 0 <= i < |readings| ==> Skipped(lastSeen, readings[i])
    decreases |readings|
  {
    if readings == [] then Pending
    else
      match readings[0]
      case Foreign => Panic(1)
      case Unreadable => Advance(NextSpec(lastSeen, readings[1..]), 1)
      case Read(p) =>
        match AcceptMessage(lastSeen, p)
        case Some(m) => Delivered(m, p.sequenceNumber, 1)
        case None => Advance(NextSpec(lastSeen, readings[1..]), 1)
  }

  /** One turn of the loop: how the outcome still to come, counted from
      `consumed` readings already used, depends on the next reading. */
  lemma NextStep(lastSeen: u32, readings: seq<Reading>, consumed: nat)
    requires readings != []
    ensures Skipped(lastSeen, readings[0]) ==>
              Advance(NextSpec(lastSeen, readings), consumed)
              == Advance(NextSpec(lastSeen, readings[1..]), consumed + 1)
    ensures readings[0].Foreign? ==> Advance(NextSpec(lastSeen, readings), consumed) == Panic(consumed + 1)
    ensures readings[0].Read? && AcceptMessage(lastSeen, readings[0].packet).Some? ==>
              Advance(NextSpec(lastSeen, readings), consumed)
              == Delivered(AcceptMessage(lastSeen, readings[0].packet).value, readings[0].packet.sequenceNumber, consumed + 1)
  {
  }

  /** Whether reading `k` is a packet whose body deserialises to `m`. */
  predicate CarriesAt(readings: seq<Reading>, k: nat, m: Message) {
    && k < |readings|
    && readings[k].Read?
    && Bincode.Deserialize(readings[k].packet.message) == Some(m)
  }

  /** Some reading carries `m1` and a later one, with a higher packet
      number, carries `m2`. */
  ghost predicate CarriedInOrder(readings: seq<Reading>, m1: Message, m2: Message) {
    exists i, j :: 0 <= i < j && CarriesAt(readings, i, m1) && CarriesAt(readings, j, m2)
                             && readings[i].packet.sequenceNumber < readings[j].packet.sequenceNumber
  }

  /** Two `next_message` calls in a row, the second starting where the
      first stopped and from the number it stored, deliver two packets in
      reading order with increasing numbers. */
  lemma TwoDeliveries(lastSeen: u32, readings: seq<Reading>, first: Next, second: Next)
    requires first == NextSpec(lastSeen, readings) && first.Delivered?
    requires second == NextSpec(first.sequence, readings[first.consumed..]) && second.Delivered?
    ensures var i, j := first.consumed - 1, first.consumed + second.consumed - 1;
            && CarriesAt(readings, i, first.msg) && CarriesAt(readings, j, second.msg)
            && readings[i].packet.sequenceNumber == first.sequence
            && readings[j].packet.sequenceNumber == second.sequence
            && lastSeen < first.sequence < second.sequence
    ensures CarriedInOrder(readings, first.msg, second.msg)
  {
    var i, j := first.consumed - 1, first.consumed + second.consumed - 1;
    assert readings[first.consumed..][second.consumed - 1] == readings[j];
    assert CarriesAt(readings, i, first.msg) && CarriesAt(readings, j, second.msg);
  }

  /** The converse of NextSpec's contract: whichever reading is the first
      one not skipped determines the outcome. */
  lemma {:induction false} FirstUnskippedDecides(lastSeen: u32, readings: seq<Reading>, k: nat)
    requires k < |readings| && !Skipped(lastSeen, readings[k])
    requires forall i :: 0 <= i < k ==> Skipped(lastSeen, readings[i])
    ensures readings[k].Foreign? ==> NextSpec(lastSeen, readings) == Panic(k + 1)
    ensures readings[k].Read? ==>
              NextSpec(lastSeen, readings) ==
              Delivered(AcceptMessage(lastSeen, readings[k].packet).value, readings[k].packet.sequenceNumber, k + 1)
    decreases k
  {
    if k > 0 {
      assert Skipped(lastSeen, readings[0]);
      assert forall i :: 0 <= i < k - 1 ==> readings[1..][i] == readings[i + 1];
      FirstUnskippedDecides(lastSeen, readings[1..], k - 1);
    }
  }

  /** Readings appended after the one that ended the loop are never looked
      at. */
  lemma {:induction false} NextIgnoresLater(lastSeen: u32, readings: seq<Reading>, later: seq<Reading>)
    requires !NextSpec(lastSeen, readings).Pending?
    ensures NextSpec(lastSeen, readings + later) == NextSpec(lastSeen, readings)
  {
    var n := NextSpec(lastSeen, readings);
    var k := n.consumed - 1;
    assert forall i :: 0 <= i <= k ==> (readings + later)[i] == readings[i];
    FirstUnskippedDecides(lastSeen, readings + later, k);
    FirstUnskippedDecides(lastSeen, readings, k);
  }
}
