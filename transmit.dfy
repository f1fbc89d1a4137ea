/** The send side of the IP adapter: the socket address of an endpoint
    (oc_get_socket_address), the packet-info control message and the
    partial-send loop of send_msg, and the socket oc_send_buffer_internal
    sends from.  Each sendmsg result is an input (`send`). */
module Transmit {
  import opened Common
  import opened Endpoints
  import opened IpContexts
  import opened Receive

  /** A filled sockaddr_storage: a sockaddr_in6 or a sockaddr_in. */
  datatype SockAddr = SockAddrIn6(address6: Addr16, port6: Uint16, scope: nat) | SockAddrIn(address4: Addr4, port4: Uint16)

  /** oc_get_socket_address: false (none) for a NULL endpoint or storage;
      the IPv4 address and port of an IPV4 endpoint; else the IPv6 address,
      port and scope. */
  function GetSocketAddress(ep: Option<Endpoint>, storage: bool): (r: Option<SockAddr>)
    ensures r.None? <==> ep.None? || !storage
    ensures r.Some? ==> (r.value.SockAddrIn? <==> Ipv4 in ep.value.flags)
  {
    if ep.None? || !storage then None
    else if Ipv4 in ep.value.flags then Some(SockAddrIn(ep.value.v4.address, ep.value.v4.port))
    else Some(SockAddrIn6(ep.value.v6.address, ep.value.v6.port, ep.value.v6.scope))
  }

  /** A reply addressed to the endpoint of a message received on the k-th
      UDP socket goes back to the sender recv_msg recorded. */
  lemma ReplyGoesToSender(bufLen: nat, outcome: RecvOutcome, ep: Endpoint, k: nat)
    requires k < 6
    requires Receive.Receive(bufLen, outcome, ep, MulticastAt(k)).Some?
    ensures var e := Receive.Receive(bufLen, outcome, ep, MulticastAt(k)).value.endpoint.(flags := UdpFlags(k));
      var first := FirstPktInfo(outcome.control);
      first.Some? && outcome.control[first.value].Ipv6PktInfo? && Ipv4 !in UdpFlags(k) ==>
        GetSocketAddress(Some(e), true) == Some(SockAddrIn6(outcome.peer.addr6, outcome.peer.port6, ToUint8(outcome.peer.scope6)))
    ensures var e := Receive.Receive(bufLen, outcome, ep, MulticastAt(k)).value.endpoint.(flags := UdpFlags(k));
      var first := FirstPktInfo(outcome.control);
      first.Some? && outcome.control[first.value].Ipv4PktInfo? && Ipv4 in UdpFlags(k) ==>
        GetSocketAddress(Some(e), true) == Some(SockAddrIn(outcome.peer.addr4, outcome.peer.port4))
  {
    var first := FirstPktInfo(outcome.control);
    if first.Some? {
      ControlWalkFirstPktInfo(ep, outcome.peer, outcome.control, MulticastAt(k), first.value);
    }
  }

  /** The position of the first packet-info control message. */
  function FirstPktInfo(cs: seq<ControlMsg>): (r: Option<nat>)
    ensures r.Some? ==> (r.value < |cs| && !cs[r.value].OtherControl?
                         && forall j :: 0 <= j < r.value ==> cs[j].OtherControl?)
    ensures r.None? ==> forall j :: 0 <= j < |cs| ==> cs[j].OtherControl?
    decreases |cs|
  {
    if cs == [] then None
    else if !cs[0].OtherControl? then Some(0)
    else
      var rest := FirstPktInfo(cs[1..]);
      if rest.None? then None else Some(rest.value + 1)
  }

  /** The packet-info message send_msg attaches: outgoing interface and
      source address from the endpoint's interface index and local address. */
  datatype SendPktInfo = SendPktInfo6(ifIndex6: Uint32, source6: Addr16) | SendPktInfo4(ifIndex4: Uint32, specDst: Addr4)

  /** IPV6_PKTINFO for an IPV6 endpoint, else IP_PKTINFO for an IPV4 one,
      else no control message. */
  function SendControl(ep: Endpoint): (r: Option<SendPktInfo>)
    ensures r.None? <==> Ipv6 !in ep.flags && Ipv4 !in ep.flags
    ensures r.Some? && r.value.SendPktInfo6? ==> Ipv6 in ep.flags && r.value == SendPktInfo6(ep.interfaceIndex, ep.local6)
    ensures r.Some? && r.value.SendPktInfo4? ==> Ipv6 !in ep.flags && r.value == SendPktInfo4(ep.interfaceIndex, ep.local4)
  {
    if Ipv6 in ep.flags then Some(SendPktInfo6(ep.interfaceIndex, ep.local6))
    else if Ipv4 in ep.flags then Some(SendPktInfo4(ep.interfaceIndex, ep.local4))
    else None
  }

  /** A reply to a message received on a unicast UDP socket leaves from the
      interface it arrived on, with the packet's destination as its source
      address; for a multicast socket the source is left to the kernel (zero). */
  lemma ReplyFromDestination(bufLen: nat, outcome: RecvOutcome, ep: Endpoint, k: nat)
    requires k < 6
    requires Receive.Receive(bufLen, outcome, ep, MulticastAt(k)).Some?
    requires FirstPktInfo(outcome.control).Some?
    ensures var e := Receive.Receive(bufLen, outcome, ep, MulticastAt(k)).value.endpoint.(flags := UdpFlags(k));
      var c := outcome.control[FirstPktInfo(outcome.control).value];
      c.Ipv6PktInfo? && Ipv6 in UdpFlags(k) ==>
        SendControl(e) == Some(SendPktInfo6(c.ifIndex6, if MulticastAt(k) then ZeroAddr16 else c.dst6))
    ensures var e := Receive.Receive(bufLen, outcome, ep, MulticastAt(k)).value.endpoint.(flags := UdpFlags(k));
      var c := outcome.control[FirstPktInfo(outcome.control).value];
      c.Ipv4PktInfo? && Ipv4 in UdpFlags(k) ==>
        SendControl(e) == Some(SendPktInfo4(c.ifIndex4, if MulticastAt(k) then [0, 0, 0, 0] else c.dst4))
  {
    ControlWalkFirstPktInfo(ep, outcome.peer, outcome.control, MulticastAt(k), FirstPktInfo(outcome.control).value);
    UdpFlagsBySocket();
  }

  /** What the kernel may answer to a sendmsg of the bytes from `sent` on:
      an error, or between one byte and all of them. */
  predicate SendOracle(send: nat -> int, length: nat) {
    forall sent: nat :: sent < length ==> send(sent) < 0 || 0 < send(sent) <= length - sent
  }

  /** The bytes the send loop has sent when it stops, from `sent` on: it
      resends the unsent rest until all `length` bytes are out or a call fails. */
  function SentTotal(send: nat -> int, length: nat, sent: nat): (r: nat)
    requires sent <= length && SendOracle(send, length)
    ensures sent <= r <= length
    decreases length - sent
  {
    if sent >= length then sent
    else
      var x := send(sent);
      if x < 0 then sent else SentTotal(send, length, sent + x)
  }

  /** The loop stops only with every byte sent or at a failed call. */
  lemma {:induction false} SentTotalStops(send: nat -> int, length: nat, sent: nat)
    requires sent <= length && SendOracle(send, length)
    ensures var t := SentTotal(send, length, sent); t == length || send(t) < 0
    decreases length - sent
  {
    if sent < length && send(sent) >= 0 {
      SentTotalStops(send, length, sent + send(sent));
    }
  }

  /** send_msg's result: -1 when no byte went out (a zero-length message
      included), else the total sent. */
  function SendResult(send: nat -> int, length: nat): (r: int)
    requires SendOracle(send, length)
    ensures r == -1 || 0 < r <= length
    ensures length == 0 ==> r == -1
    ensures length > 0 && send(0) < 0 ==> r == -1
  {
    var t := SentTotal(send, length, 0);
    if t == 0 then -1 else t
  }

  /** A message whose sendmsg calls never fail is sent whole. */
  lemma SendResultWhole(send: nat -> int, length: nat)
    requires SendOracle(send, length) && length > 0
    requires forall sent: nat :: sent < length ==> send(sent) >= 0
    ensures SendResult(send, length) == length
  {
    SentTotalStops(send, length, 0);
  }

  /** send_msg: builds the control message from the endpoint, then sends the
      message's `length` bytes in as many sendmsg calls as it takes. */
  method SendMsg(message: Message, send: nat -> int) returns (ret: int, control: Option<SendPktInfo>)
    requires SendOracle(send, message.length)
    ensures control == SendControl(message.endpoint)
    ensures ret == SendResult(send, message.length)
  {
    control := None;
    if Ipv6 in message.endpoint.flags {
      control := Some(SendPktInfo6(message.endpoint.interfaceIndex, message.endpoint.local6));
    } else if Ipv4 in message.endpoint.flags {
      control := Some(SendPktInfo4(message.endpoint.interfaceIndex, message.endpoint.local4));
    }
    var length := message.length;
    var sent: nat := 0;
    while sent < length
      invariant sent <= length
      invariant SentTotal(send, length, 0) == SentTotal(send, length, sent)
      decreases length - sent
    {
      var x := send(sent);
      if x < 0 {
        break;
      }
      sent := sent + x;
    }
    if sent == 0 {
      return -1, control;
    }
    return sent, control;
  }

  /** The UDP socket a message is sent from: the DTLS socket of its family
      for a SECURED endpoint, else the unicast server socket of its family. */
  function SendSocket(flags: set<TransportFlag>, dev: IpContext): (r: int)
    ensures Secured in flags ==> r == dev.secure4 || r == dev.secure
    ensures Secured !in flags ==> r == dev.server4 || r == dev.server
    ensures Ipv4 in flags ==> r == dev.secure4 || r == dev.server4
    ensures Ipv4 !in flags ==> r == dev.secure || r == dev.server
  {
    if Secured in flags then (if Ipv4 in flags then dev.secure4 else dev.secure)
    else if Ipv4 in flags then dev.server4 else dev.server
  }

  /** A reply to a message received on the k-th UDP socket leaves from the
      unicast socket of the same family and security: a multicast request is
      answered from the server socket. */
  lemma ReplySocket(dev: IpContext)
    ensures SendSocket(UdpFlags(0), dev) == dev.server && SendSocket(UdpFlags(1), dev) == dev.server
    ensures SendSocket(UdpFlags(2), dev) == dev.server4 && SendSocket(UdpFlags(3), dev) == dev.server4
    ensures SendSocket(UdpFlags(4), dev) == dev.secure && SendSocket(UdpFlags(5), dev) == dev.secure4
  {
    assert UdpFlags(1) == {Ipv6, Multicast} && UdpFlags(3) == {Ipv4, Multicast};
    assert UdpFlags(4) == {Ipv6, Secured} && UdpFlags(5) == {Ipv4, Secured};
  }

  /** How oc_send_buffer_internal dispatched a message. */
  datatype SendRoute =
    | NoRoute
    | TcpRoute(create: bool, queue: bool)
    | UdpRoute(sock: int, receiver: SockAddr, control: Option<SendPktInfo>)

  /** oc_send_buffer_internal: -1 when no context serves the message's
      device; a TCP endpoint goes to the TCP layer (oc_tcp_send_buffer when
      `create`, else oc_tcp_send_buffer2), whose result is `tcpResult`;
      otherwise send_msg on the socket SendSocket picks. */
  method SendBufferInternal(message: Message, create: bool, queue: bool, contexts: seq<IpContext>,
                            send: nat -> int, tcpResult: int)
    returns (ret: int, route: SendRoute)
    requires SendOracle(send, message.length)
    ensures var dev := FindContext(contexts, message.endpoint.device);
      dev.None? ==> ret == -1 && route == NoRoute
    ensures var dev := FindContext(contexts, message.endpoint.device);
      dev.Some? && Tcp in message.endpoint.flags ==> ret == tcpResult && route == TcpRoute(create, queue)
    ensures var dev := FindContext(contexts, message.endpoint.device);
      dev.Some? && Tcp !in message.endpoint.flags ==>
        ret == SendResult(send, message.length)
        && route == UdpRoute(SendSocket(message.endpoint.flags, dev.value),
                             GetSocketAddress(Some(message.endpoint), true).value,
                             SendControl(message.endpoint))
  {
    var receiver := GetSocketAddress(Some(message.endpoint), true);
    if receiver.None? {
      return -1, NoRoute;
    }
    var dev := GetIpContextForDevice(contexts, message.endpoint.device);
    if dev.None? {
      return -1, NoRoute;
    }
    if Tcp in message.endpoint.flags {
      return tcpResult, TcpRoute(create, queue);
    }
    var sendSock: int;
    if Secured in message.endpoint.flags {
      if Ipv4 in message.endpoint.flags {
        sendSock := dev.value.secure4;
      } else {
        sendSock := dev.value.secure;
      }
    } else if Ipv4 in message.endpoint.flags {
      sendSock := dev.value.server4;
    } else {
      sendSock := dev.value.server;
    }
    var control;
    ret, control := SendMsg(message, send);
    route := UdpRoute(sendSock, receiver.value, control);
  }
}
