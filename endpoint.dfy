/** The endpoint record (oc_endpoint_t) as the IP adapter reads and writes it. */
module Endpoints {
  import opened Common

  /** The transport flag bits of an endpoint, as a set. */
  datatype TransportFlag = Discovery | Secured | Ipv4 | Ipv6 | Tcp | Multicast

  /** The two address families the adapter opens sockets for (AF_INET6, AF_INET). */
  datatype IpFamily = FamilyInet6 | FamilyInet

  /** oc_ipv6_addr_t: the scope id is a uint8_t, so stores into it truncate. */
  datatype Ipv6Addr = Ipv6Addr(port: Uint16, address: Addr16, scope: Uint8)

  datatype Ipv4Addr = Ipv4Addr(port: Uint16, address: Addr4)

  /** The fields of an endpoint the adapter uses.  `v6`/`v4` are the two views
      of the remote (or own) address, `local6`/`local4` those of `addr_local`. */
  datatype Endpoint = Endpoint(
    device: nat,
    flags: set<TransportFlag>,
    v6: Ipv6Addr,
    v4: Ipv4Addr,
    local6: Addr16,
    local4: Addr4,
    interfaceIndex: Uint32)

  const ZeroIpv6: Ipv6Addr := Ipv6Addr(0, ZeroAddr16, 0)
  const ZeroIpv4: Ipv4Addr := Ipv4Addr(0, [0, 0, 0, 0])

  /** An endpoint after `memset(&ep, 0, sizeof(oc_endpoint_t))`. */
  const BlankEndpoint: Endpoint := Endpoint(0, {}, ZeroIpv6, ZeroIpv4, ZeroAddr16, [0, 0, 0, 0], 0)

  /** The address of an entry of the getifaddrs list. */
  datatype IfSockAddr = IfInet6(address6: Addr16) | IfInet(address4: Addr4) | IfOtherFamily(code: nat)

  /** `ifIndex` is the result of if_nametoindex on the entry's name. */
  datatype IfAddrEntry = IfAddrEntry(ifIndex: int, up: bool, loopback: bool, addr: Option<IfSockAddr>)

  /** A message (oc_message_t) as the adapter fills and sends it: `data` is
      its fixed buffer of OC_PDU_SIZE bytes, of which `length` are in use. */
  class Message {
    const data: array<Byte>
    var length: nat
    var endpoint: Endpoint
    var encrypted: bool

    /** oc_allocate_message, as this model takes it: an empty message for `device`. */
    constructor (size: nat, device: nat)
      ensures fresh(data) && data.Length == size
      ensures length == 0 && endpoint == BlankEndpoint.(device := device) && !encrypted
    {
      data := new Byte[size];
      length := 0;
      endpoint := BlankEndpoint.(device := device);
      encrypted := false;
    }
  }
}
