/** The session registry of server/src/main.rs: a map from peer address to
    session, filled lazily by `read_socket` and swept by `tick_loop`. The
    session API this file calls (`Session::new`, `on_packet`,
    `disconnected`, `pos`, `send`) is not the actor of server/src/session.rs,
    so here a session is an opaque value of type S and those operations are
    parameters. The lock around the map is gone: every step below runs with
    the map to itself, as the lock guarantees in the source. */
module ServerRegistry {
  import opened Bytes
  import opened Net
  import opened Wrappers
  import opened PacketCodec

  /** `entry(remote).or_insert_with(|| Session::new(remote))`: the session
      already registered for `remote`, or a new one. */
  function Entry<S>(sessions: map<SocketAddr, S>, remote: SocketAddr, newSession: SocketAddr -> S): S {
    if remote in sessions then sessions[remote] else newSession(remote)
  }

  /** `read_socket`'s handling of one datagram from `remote`, as a value. */
  function DatagramStep<S>(
    sessions: map<SocketAddr, S>, remote: SocketAddr, dgram: seq<byte>,
    newSession: SocketAddr -> S, onPacket: (S, Packet) -> S, disconnected: S -> bool
  ): (r: map<SocketAddr, S>)
    ensures forall a :: a != remote ==> (a in r <==> a in sessions)
    ensures forall a :: a != remote && a in sessions ==> r[a] == sessions[a]
    ensures remote !in r <==>
              FromBytes(dgram).Ok?
              && disconnected(onPacket(Entry(sessions, remote, newSession), FromBytes(dgram).value))
    ensures FromBytes(dgram).Err? ==> r == sessions[remote := Entry(sessions, remote, newSession)]
    ensures FromBytes(dgram).Ok? && remote in r ==>
              r[remote] == onPacket(Entry(sessions, remote, newSession), FromBytes(dgram).value)
  {
    var session := Entry(sessions, remote, newSession);
    match FromBytes(dgram)
    case Err(_) => sessions[remote := session]
    case Ok(packet) =>
      var session := onPacket(session, packet);
      if disconnected(session) then sessions - {remote} else sessions[remote := session]
  }

  class State<S> {
    var sessions: map<SocketAddr, S>

    constructor ()
      ensures sessions == map[]
    {
      sessions := map[];
    }

    /** The body of `read_socket`'s loop for one received datagram. */
    method HandleDatagram(
      remote: SocketAddr, dgram: seq<byte>,
      newSession: SocketAddr -> S, onPacket: (S, Packet) -> S, disconnected: S -> bool)
      modifies this
      ensures sessions == DatagramStep(old(sessions), remote, dgram, newSession, onPacket, disconnected)
    {
      if remote !in sessions {
        sessions := sessions[remote := newSession(remote)];
      }
      var session := sessions[remote];
      assert session == Entry(old(sessions), remote, newSession);
      assert sessions == old(sessions)[remote := session];
      var decoded := FromBytes(dgram);
      match decoded
      case Ok(packet) =>
        session := onPacket(session, packet);
        sessions := sessions[remote := session];
        assert sessions == old(sessions)[remote := session];
        if disconnected(session) {
          sessions := sessions - {remote};
          assert sessions == old(sessions) - {remote};
        }
      case Err(_) =>
    }

    /** `sessions.values().map(|s| s.pos()).collect()`: one position per
        session, in the map's iteration order, which is returned as `order`. */
    method Positions<P>(pos: S -> P) returns (order: seq<SocketAddr>, positions: seq<P>)
      ensures |order| == |positions| == |sessions|
      ensures forall i, j :: 0 <= i < j < |order| ==> order[i] != order[j]
      ensures forall a :: a in sessions <==> a in order
      ensures forall i :: 0 <= i < |order| ==> order[i] in sessions && positions[i] == pos(sessions[order[i]])
    {
      var remaining := sessions.Keys;
      order, positions := [], [];
      while remaining != {}
        invariant remaining <= sessions.Keys
        invariant |order| == |positions|
        invariant |order| + |remaining| == |sessions.Keys|
        invariant forall i :: 0 <= i < |order| ==>
                    order[i] in sessions && order[i] !in remaining && positions[i] == pos(sessions[order[i]])
        invariant forall i, j :: 0 <= i < j < |order| ==> order[i] != order[j]
        invariant forall a :: a in sessions ==> a in remaining || a in order
        decreases |remaining|
      {
        var a :| a in remaining;
        order := order + [a];
        positions := positions + [pos(sessions[a])];
        remaining := remaining - {a};
      }
    }

    /** `State::broadcast`: every registered session sends `msg`. */
    method Broadcast<M>(msg: M, send: (S, M) -> S)
      modifies this
      ensures sessions.Keys == old(sessions).Keys
      ensures forall a :: a in sessions ==> sessions[a] == send(old(sessions)[a], msg)
    {
      var remaining := sessions.Keys;
      ghost var before := sessions;
      while remaining != {}
        invariant remaining <= sessions.Keys && sessions.Keys == before.Keys
        invariant forall a :: a in sessions ==>
                    sessions[a] == if a in remaining then before[a] else send(before[a], msg)
        decreases |remaining|
      {
        var a :| a in remaining;
        sessions := sessions[a := send(sessions[a], msg)];
        remaining := remaining - {a};
      }
    }

    /** One pass of `tick_loop` (the 16 ms sleep left out): snapshot every
        session's position, then broadcast `Refresh(positions)` to all. */
    method Tick<P, M>(pos: S -> P, refresh: seq<P> -> M, send: (S, M) -> S)
      returns (order: seq<SocketAddr>, positions: seq<P>)
      modifies this
      ensures |order| == |positions| == |old(sessions)|
      ensures forall i, j :: 0 <= i < j < |order| ==> order[i] != order[j]
      ensures forall a :: a in old(sessions) <==> a in order
      ensures forall i :: 0 <= i < |order| ==>
                order[i] in old(sessions) && positions[i] == pos(old(sessions)[order[i]])
      ensures sessions.Keys == old(sessions).Keys
      ensures forall a :: a in sessions ==> sessions[a] == send(old(sessions)[a], refresh(positions))
    {
      order, positions := Positions(pos);
      Broadcast(refresh(positions), send);
    }
  }
}
