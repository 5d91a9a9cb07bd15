/** Peer addresses (`SocketAddr`): the server keys its sessions by them and
    a client compares the sender of each datagram with its server's. */
module Net {
  import opened Bytes

  datatype SocketAddr = SocketAddr(ip: seq<byte>, port: u16)
}
