/** IP addresses and the listen texts that spell them. */
module Addresses {

  /** An address as net.IP sees it; IPv4-mapped IPv6 is IPv4. */
  datatype IP = V4(a: int, b: int, c: int, d: int) | V6(groups: seq<int>)

  const LOCALHOST4: IP := V4(127, 0, 0, 1)
  const LOCALHOST6: IP := V6([0, 0, 0, 0, 0, 0, 0, 1])

  function Lead(ip: IP): int
    requires ip.V6?
  {
    if ip.groups == [] then 0 else ip.groups[0]
  }

  predicate IsLoopback(ip: IP) {
    match ip
    case V4(a, _, _, _) => a == 127
    case V6(_) => ip == LOCALHOST6
  }

  predicate IsUnspecified(ip: IP) {
    ip == V4(0, 0, 0, 0) || ip == V6([0, 0, 0, 0, 0, 0, 0, 0])
  }

  predicate IsPrivate(ip: IP) {
    match ip
    case V4(a, b, _, _) => a == 10 || (a == 172 && 16 <= b < 32) || (a == 192 && b == 168)
    case V6(_) => 0xfc00 <= Lead(ip) < 0xfe00
  }

  predicate IsGlobalUnicast(ip: IP) {
    && ip != V4(255, 255, 255, 255) && !IsUnspecified(ip) && !IsLoopback(ip)
    && match ip
       case V4(a, b, _, _) => !(224 <= a < 240) && !(a == 169 && b == 254)
       case V6(_) => Lead(ip) < 0xff00 && !(0xfe80 <= Lead(ip) < 0xfec0)
  }

  predicate IsPublic(ip: IP) {
    IsGlobalUnicast(ip) && !IsPrivate(ip)
  }

  /** An address text: one net.ParseIP accepts, or any other. Spelling 0 is the form
      ip.String() prints; two texts are equal when the values are. */
  datatype Text = Name(text: string) | Literal(ip: IP, spelling: nat)

  function Canonical(ip: IP): Text {
    Literal(ip, 0)
  }

  const LOOPBACK_TEXT: Text := Canonical(LOCALHOST4)

  /** The handlers' test: "localhost", or any spelling of a loopback address. */
  predicate IsLoopbackListen(listen: Text) {
    listen == Name("localhost") || (listen.Literal? && IsLoopback(listen.ip))
  }
}
