/** The handshake end to end: the asynchronous client of client/src/conn.rs
    against a fresh server session of server/src/session.rs, over a network
    that delivers every packet once and in order. */
module EndToEnd {
  import opened Bytes
  import opened Net
  import opened Proto
  import Bincode
  import opened PacketCodec
  import ServerSession
  import AsyncClient

  /** The client's Connect and echo, handled by a new session that draws
      `nonce`, leave the session Connected; the session's two replies, read
      by the client, establish the connection with that same nonce. */
  lemma ClientMeetsServer(server: SocketAddr, nonce: u32, other: u32, now1: int, now2: int, t1: int, t2: int)
    requires InI64(t1) && InI64(t2)
    ensures var c := AsyncClient.ConnectPackets(nonce, now1, now2);
            var challenge := NewPacket(1, Bincode.Serialize(Handshake(Challenge(nonce))), t1);
            var success := NewPacket(2, Bincode.Serialize(Handshake(Success)), t2);
            var s := ServerSession.Run(ServerSession.InitialView(),
                                       [ServerSession.Delivery(ServerSession.Recv(c[0]), nonce, t1, true),
                                        ServerSession.Delivery(ServerSession.Recv(c[1]), other, t2, true)]);
            && s.halt.None?
            && s.view.handshake == Connected
            && s.view.sent == [challenge, success]
            && AsyncClient.ConnectSpec(server,
                                       [AsyncClient.Datagram(server, ToBytes(challenge)),
                                        AsyncClient.Datagram(server, ToBytes(success))],
                                       now1, true, now2, true)
               == AsyncClient.ConnectResult(AsyncClient.Established(nonce),
                                            AsyncClient.ConnView(2, 3, c, []))
  {
    var c := AsyncClient.ConnectPackets(nonce, now1, now2);
    ServerSession.HandshakeHappyPath(c[0], c[1], nonce, other, t1, t2);
    var challenge := NewPacket(1, Bincode.Serialize(Handshake(Challenge(nonce))), t1);
    var success := NewPacket(2, Bincode.Serialize(Handshake(Success)), t2);
    AsyncClient.ConnectHappyPath(server, challenge, success, nonce, now1, now2);
  }
}
