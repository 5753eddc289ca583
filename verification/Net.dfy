/** Addresses as the probe layer sees them, with the total order `sort()` and `sort_by_key` use. */
module Net {
  type Port = n: nat | n < 0x1_0000
  type Bits32 = n: nat | n < 0x1_0000_0000
  type Bits128 = n: nat | n < 0x1_0000_0000_0000_0000_0000_0000_0000_0000

  datatype Ip = V4(bits4: Bits32) | V6(bits6: Bits128)

  datatype SocketAddr = SocketAddr(ip: Ip, port: Port)

  /** Position of an address in the derived order of `IpAddr`: every IPv4 address before every IPv6. */
  function IpRank(ip: Ip): (r: int) {
    match ip
    case V4(b) => b
    case V6(b) => 0x1_0000_0000 + b
  }

  /** Position of a socket address: first by address, then by port. */
  function SocketRank(a: SocketAddr): (r: int) {
    IpRank(a.ip) * 0x1_0000 + a.port
  }

  /** The rank is the lexicographic order on (family, address, port), and tells addresses apart. */
  lemma SocketRankOrders(a: SocketAddr, b: SocketAddr)
    ensures SocketRank(a) < SocketRank(b) <==>
            || (a.ip.V4? && b.ip.V6?)
            || (a.ip.V4? && b.ip.V4? && a.ip.bits4 < b.ip.bits4)
            || (a.ip.V6? && b.ip.V6? && a.ip.bits6 < b.ip.bits6)
            || (a.ip == b.ip && a.port < b.port)
    ensures SocketRank(a) == SocketRank(b) <==> a == b
  {
  }
}
