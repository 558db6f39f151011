// Socket addresses, as far as the DHT looks at them.
module SocketAddrs {
  import opened Wrappers

  type u16 = x: int | 0 <= x < 0x1_0000

  datatype SocketAddr = V4(ip: u32, port: u16) | V6(ip6: nat, port: u16)
}
