/** The synchronisation datagram in host byte order. The byte-order codec
    lives in packet.h, which is not part of this model. */
module SyncMessage {
  import opened Uint64

  datatype Msg = Msg(
    seqNo: u64,       // the `seq` field
    t1: u64,          // request leaves the client (client clock)
    t2: u64,          // request reaches the server (server clock)
    t3: u64,          // reply leaves the server (server clock)
    t4: u64,          // reply reaches the client (client clock)
    serverTicks: u64, // server's tick counter as reported
    timeToFire: int   // nanoseconds from the server's "now" to its next tick
  )

  /** A message after `memset(&msg, 0, sizeof(msg))`. */
  const Zero: Msg := Msg(0, 0, 0, 0, 0, 0, 0)
}
