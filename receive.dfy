/** The receive side of the IP adapter: what recv_msg stores in the message
    and its endpoint, which ready UDP socket oc_udp_receive_message serves,
    and the order in which process_event hands a ready descriptor set to its
    handlers.  Each recvmsg result is an input (`RecvOutcome`); the EINTR
    retry loop is folded into it. */
module Receive {
  import opened Common
  import opened Endpoints
  import opened IpContexts

  /** sizeof(struct sockaddr_in6) and sizeof(struct sockaddr_in). */
  const SockaddrIn6Size: nat := 28
  const SockaddrInSize: nat := 16

  /** The sender address recvmsg stored in `client`: its length and its
      sockaddr_in6 and sockaddr_in views. */
  datatype PeerName = PeerName(nameLen: nat, addr6: Addr16, port6: Uint16, scope6: Uint32, addr4: Addr4, port4: Uint16)

  /** A decoded control message: IPV6_PKTINFO, IP_PKTINFO or another one. */
  datatype ControlMsg =
    | Ipv6PktInfo(ifIndex6: Uint32, dst6: Addr16)
    | Ipv4PktInfo(ifIndex4: Uint32, dst4: Addr4)
    | OtherControl(level: int, kind: int)

  /** The result of recvmsg on one socket: a failure, or the datagram (which
      may be longer than the buffer), MSG_CTRUNC, the sender and the
      control messages. */
  datatype RecvOutcome =
    | RecvFailed
    | Received(datagram: seq<Byte>, controlTruncated: bool, peer: PeerName, control: seq<ControlMsg>)

  /** The control-message walk: the first IPV6_PKTINFO or IP_PKTINFO decides.
      A sender address of the wrong length is an error (none); otherwise the
      sender address and port (and scope for IPv6) and the receiving interface
      are copied, and the local address is the packet's destination on a
      unicast socket and all zeros on a multicast socket.  The device and the
      flags of the endpoint are never changed. */
  function ControlWalk(ep: Endpoint, peer: PeerName, cs: seq<ControlMsg>, multicast: bool): (r: Option<Endpoint>)
    ensures r.Some? ==> r.value.device == ep.device && r.value.flags == ep.flags
    decreases |cs|
  {
    if cs == [] then Some(ep)
    else match cs[0]
      case Ipv6PktInfo(ifIndex, dst) =>
        if peer.nameLen != SockaddrIn6Size then None
        else Some(ep.(v6 := Ipv6Addr(peer.port6, peer.addr6, ToUint8(peer.scope6)), interfaceIndex := ifIndex,
                      local6 := if multicast then ZeroAddr16 else dst))
      case Ipv4PktInfo(ifIndex, dst) =>
        if peer.nameLen != SockaddrInSize then None
        else Some(ep.(v4 := Ipv4Addr(peer.port4, peer.addr4), interfaceIndex := ifIndex,
                      local4 := if multicast then [0, 0, 0, 0] else dst))
      case OtherControl(_, _) => ControlWalk(ep, peer, cs[1..], multicast)
  }

  /** Without a packet-info control message the endpoint is left as it was. */
  lemma {:induction false} ControlWalkNoPktInfo(ep: Endpoint, peer: PeerName, cs: seq<ControlMsg>, multicast: bool)
    requires forall j :: 0 <= j < |cs| ==> cs[j].OtherControl?
    ensures ControlWalk(ep, peer, cs, multicast) == Some(ep)
    decreases |cs|
  {
    if cs != [] {
      assert cs[0].OtherControl?;
      ControlWalkNoPktInfo(ep, peer, cs[1..], multicast);
    }
  }

  /** The first packet-info message `cs[k]` decides the result: for
      IPV6_PKTINFO it fails iff the sender is not a sockaddr_in6, and else
      sets the IPv6 sender, the interface index and the local address, the
      destination for unicast and zero for multicast; the rest of the
      endpoint is kept.  Likewise for IP_PKTINFO. */
  lemma {:induction false} ControlWalkFirstPktInfo(ep: Endpoint, peer: PeerName, cs: seq<ControlMsg>, multicast: bool, k: nat)
    requires k < |cs| && !cs[k].OtherControl?
    requires forall j :: 0 <= j < k ==> cs[j].OtherControl?
    ensures var r := ControlWalk(ep, peer, cs, multicast);
      cs[k].Ipv6PktInfo? ==>
        (r.None? <==> peer.nameLen != SockaddrIn6Size)
        && (r.Some? ==> r.value.v6 == Ipv6Addr(peer.port6, peer.addr6, ToUint8(peer.scope6))
                        && r.value.interfaceIndex == cs[k].ifIndex6
                        && r.value.local6 == (if multicast then ZeroAddr16 else cs[k].dst6)
                        && r.value.v4 == ep.v4 && r.value.local4 == ep.local4
                        && r.value.flags == ep.flags && r.value.device == ep.device)
    ensures var r := ControlWalk(ep, peer, cs, multicast);
      cs[k].Ipv4PktInfo? ==>
        (r.None? <==> peer.nameLen != SockaddrInSize)
        && (r.Some? ==> r.value.v4 == Ipv4Addr(peer.port4, peer.addr4)
                        && r.value.interfaceIndex == cs[k].ifIndex4
                        && r.value.local4 == (if multicast then [0, 0, 0, 0] else cs[k].dst4)
                        && r.value.v6 == ep.v6 && r.value.local6 == ep.local6
                        && r.value.flags == ep.flags && r.value.device == ep.device)
    decreases k
  {
    if k > 0 {
      assert cs[0].OtherControl?;
      ControlWalkFirstPktInfo(ep, peer, cs[1..], multicast, k - 1);
    }
  }

  /** What one successful recv_msg gives: the byte count and the endpoint. */
  datatype Reception = Reception(count: nat, endpoint: Endpoint)

  /** recv_msg on a buffer of `bufLen` bytes: none (-1) when recvmsg failed,
      the datagram did not fit (MSG_TRUNC), the control data was cut
      (MSG_CTRUNC) or the sender address has the wrong length. */
  function Receive(bufLen: nat, outcome: RecvOutcome, ep: Endpoint, multicast: bool): (r: Option<Reception>)
    ensures r.Some? ==> outcome.Received? && r.value.count == |outcome.datagram| <= bufLen
    ensures outcome.Received? && |outcome.datagram| <= bufLen && !outcome.controlTruncated ==>
      (r.Some? <==> ControlWalk(ep, outcome.peer, outcome.control, multicast).Some?)
  {
    if outcome.RecvFailed? || |outcome.datagram| > bufLen || outcome.controlTruncated then None
    else
      var meta := ControlWalk(ep, outcome.peer, outcome.control, multicast);
      if meta.None? then None else Some(Reception(|outcome.datagram|, meta.value))
  }

  /** The buffer after the kernel copied as much of `datagram` as fits. */
  function Written(buf: seq<Byte>, datagram: seq<Byte>): (r: seq<Byte>)
    ensures |r| == |buf|
    ensures forall i :: 0 <= i < |buf| ==> r[i] == if i < |datagram| then datagram[i] else buf[i]
  {
    if |datagram| >= |buf| then datagram[..|buf|] else datagram + buf[|datagram|..]
  }

  /** recv_msg: -1 on failure; otherwise the byte count, with the endpoint
      updated by the control-message walk.  The endpoint is untouched on
      failure. */
  method RecvMsg(buf: array<Byte>, outcome: RecvOutcome, ep: Endpoint, multicast: bool) returns (ret: int, ep': Endpoint)
    modifies buf
    ensures outcome.RecvFailed? ==> buf[..] == old(buf[..])
    ensures outcome.Received? ==> buf[..] == Written(old(buf[..]), outcome.datagram)
    ensures var r := Receive(buf.Length, outcome, ep, multicast);
      if r.None? then ret == -1 && ep' == ep else ret == r.value.count && ep' == r.value.endpoint
  {
    if outcome.RecvFailed? {
      return -1, ep;
    }
    var n := if |outcome.datagram| < buf.Length then |outcome.datagram| else buf.Length;
    ghost var before := buf[..];
    forall i | 0 <= i < n {
      buf[i] := outcome.datagram[i];
    }
    assert buf[..] == Written(before, outcome.datagram);
    if |outcome.datagram| > buf.Length || outcome.controlTruncated {
      return -1, ep;
    }
    var cs := outcome.control;
    var peer := outcome.peer;
    var i := 0;
    while i < |cs|
      invariant 0 <= i <= |cs|
      invariant ControlWalk(ep, peer, cs, multicast) == ControlWalk(ep, peer, cs[i..], multicast)
    {
      assert cs[i..][1..] == cs[i + 1..];
      match cs[i] {
        case Ipv6PktInfo(ifIndex, dst) =>
          if peer.nameLen != SockaddrIn6Size {
            return -1, ep;
          }
          ep' := ep.(v6 := Ipv6Addr(peer.port6, peer.addr6, ToUint8(peer.scope6)), interfaceIndex := ifIndex);
          if !multicast {
            ep' := ep'.(local6 := dst);
          } else {
            ep' := ep'.(local6 := ZeroAddr16);
          }
          return n, ep';
        case Ipv4PktInfo(ifIndex, dst) =>
          if peer.nameLen != SockaddrInSize {
            return -1, ep;
          }
          ep' := ep.(v4 := Ipv4Addr(peer.port4, peer.addr4), interfaceIndex := ifIndex);
          if !multicast {
            ep' := ep'.(local4 := dst);
          } else {
            ep' := ep'.(local4 := [0, 0, 0, 0]);
          }
          return n, ep';
        case OtherControl(_, _) =>
      }
      i := i + 1;
    }
    return n, ep;
  }

  /** adapter_receive_state_t. */
  datatype ReceiveState = StatusNone | StatusError | StatusReceive

  /** The descriptor set select reported ready for reading. */
  class FdSet {
    var ready: set<int>

    constructor (ready: set<int>)
      ensures this.ready == ready
    {
      this.ready := ready;
    }
  }

  /** The UDP sockets in the order oc_udp_receive_message tests them:
      server, mcast, server4, mcast4, secure, secure4. */
  function UdpSockets(dev: IpContext): (r: seq<int>)
    ensures |r| == 6
  {
    [dev.server, dev.mcast, dev.server4, dev.mcast4, dev.secure, dev.secure4]
  }

  /** The k-th UDP socket is a multicast one. */
  predicate MulticastAt(k: nat) {
    k == 1 || k == 3
  }

  /** The k-th UDP socket is a DTLS one. */
  predicate SecureAt(k: nat) {
    k == 4 || k == 5
  }

  /** The endpoint flags a message from the k-th UDP socket gets. */
  function UdpFlags(k: nat): (r: set<TransportFlag>)
    requires k < 6
  {
    [{Ipv6}, {Ipv6, Multicast}, {Ipv4}, {Ipv4, Multicast}, {Ipv6, Secured}, {Ipv4, Secured}][k]
  }

  /** Each socket's message is IPv4 or IPv6 and not both, MULTICAST exactly
      for the multicast sockets, SECURED exactly for the secure ones, and
      nothing else. */
  lemma UdpFlagsBySocket()
    ensures forall k :: 0 <= k < 6 ==>
      (Ipv6 in UdpFlags(k) <==> Ipv4 !in UdpFlags(k))
      && (Multicast in UdpFlags(k) <==> MulticastAt(k))
      && (Secured in UdpFlags(k) <==> SecureAt(k))
      && UdpFlags(k) - {Ipv6, Ipv4, Multicast, Secured} == {}
    ensures forall k :: 0 <= k < 6 ==> (Ipv4 in UdpFlags(k) <==> k == 2 || k == 3 || k == 5)
  {
    forall k | 0 <= k < 6
      ensures (Ipv6 in UdpFlags(k) <==> Ipv4 !in UdpFlags(k))
      ensures (Multicast in UdpFlags(k) <==> MulticastAt(k)) && (Secured in UdpFlags(k) <==> SecureAt(k))
      ensures UdpFlags(k) - {Ipv6, Ipv4, Multicast, Secured} == {}
      ensures Ipv4 in UdpFlags(k) <==> k == 2 || k == 3 || k == 5
    {
      if k == 0 {} else if k == 1 {} else if k == 2 {} else if k == 3 {} else if k == 4 {} else {}
    }
  }

  /** The position of the first socket of `socks` that is ready. */
  function FirstReady(socks: seq<int>, ready: set<int>): (r: Option<nat>)
    ensures r.None? <==> forall j :: 0 <= j < |socks| ==> socks[j] !in ready
    ensures r.Some? ==> (r.value < |socks| && socks[r.value] in ready
                         && forall j :: 0 <= j < r.value ==> socks[j] !in ready)
    decreases |socks|
  {
    if socks == [] then None
    else if socks[0] in ready then Some(0)
    else
      var rest := FirstReady(socks[1..], ready);
      if rest.None? then None else Some(rest.value + 1)
  }

  lemma FirstReadyAt(socks: seq<int>, ready: set<int>, k: nat)
    requires k < |socks| && socks[k] in ready
    requires forall j :: 0 <= j < k ==> socks[j] !in ready
    ensures FirstReady(socks, ready) == Some(k)
  {
  }

  /** oc_udp_receive_message: the first ready UDP socket is taken out of the
      ready set and read from; no other socket is looked at.  On success
      the message gets the byte count, the endpoint from recv_msg with the
      socket's flags, and `encrypted` for a secure socket.  With no UDP
      socket ready nothing changes. */
  method UdpReceiveMessage(dev: IpContext, fds: FdSet, message: Message, recvOf: int -> RecvOutcome) returns (s: ReceiveState)
    modifies fds, message, message.data
    ensures var k := FirstReady(UdpSockets(dev), old(fds.ready));
      k.None? ==> (s == StatusNone && fds.ready == old(fds.ready) && message.data[..] == old(message.data[..])
                   && message.length == old(message.length) && message.endpoint == old(message.endpoint)
                   && message.encrypted == old(message.encrypted))
    ensures var k := FirstReady(UdpSockets(dev), old(fds.ready));
      k.Some? ==>
        var sock := UdpSockets(dev)[k.value];
        var got := Receive(message.data.Length, recvOf(sock), old(message.endpoint), MulticastAt(k.value));
        fds.ready == old(fds.ready) - {sock}
        && (recvOf(sock).Received? ==> message.data[..] == Written(old(message.data[..]), recvOf(sock).datagram))
        && (recvOf(sock).RecvFailed? ==> message.data[..] == old(message.data[..]))
        && (got.None? ==> (s == StatusError && message.length == old(message.length)
                            && message.endpoint == old(message.endpoint) && message.encrypted == old(message.encrypted)))
        && (got.Some? ==> (s == StatusReceive && message.length == got.value.count
                            && message.endpoint == got.value.endpoint.(flags := UdpFlags(k.value))
                            && message.encrypted == (old(message.encrypted) || SecureAt(k.value))))
  {
    ghost var socks := UdpSockets(dev);
    if dev.server in fds.ready {
      FirstReadyAt(socks, fds.ready, 0);
      s := ReceiveOn(dev.server, 0, fds, message, recvOf);
      return;
    }
    if dev.mcast in fds.ready {
      FirstReadyAt(socks, fds.ready, 1);
      s := ReceiveOn(dev.mcast, 1, fds, message, recvOf);
      return;
    }
    if dev.server4 in fds.ready {
      FirstReadyAt(socks, fds.ready, 2);
      s := ReceiveOn(dev.server4, 2, fds, message, recvOf);
      return;
    }
    if dev.mcast4 in fds.ready {
      FirstReadyAt(socks, fds.ready, 3);
      s := ReceiveOn(dev.mcast4, 3, fds, message, recvOf);
      return;
    }
    if dev.secure in fds.ready {
      FirstReadyAt(socks, fds.ready, 4);
      s := ReceiveOn(dev.secure, 4, fds, message, recvOf);
      return;
    }
    if dev.secure4 in fds.ready {
      FirstReadyAt(socks, fds.ready, 5);
      s := ReceiveOn(dev.secure4, 5, fds, message, recvOf);
      return;
    }
    assert forall j :: 0 <= j < 6 ==> socks[j] !in fds.ready;
    return StatusNone;
  }

  /** One branch of oc_udp_receive_message, for the k-th UDP socket `sock`. */
  method ReceiveOn(sock: int, k: nat, fds: FdSet, message: Message, recvOf: int -> RecvOutcome) returns (s: ReceiveState)
    requires k < 6
    modifies fds, message, message.data
    ensures var got := Receive(message.data.Length, recvOf(sock), old(message.endpoint), MulticastAt(k));
      fds.ready == old(fds.ready) - {sock}
      && (recvOf(sock).Received? ==> message.data[..] == Written(old(message.data[..]), recvOf(sock).datagram))
      && (recvOf(sock).RecvFailed? ==> message.data[..] == old(message.data[..]))
      && (got.None? ==> (s == StatusError && message.length == old(message.length)
                          && message.endpoint == old(message.endpoint) && message.encrypted == old(message.encrypted)))
      && (got.Some? ==> (s == StatusReceive && message.length == got.value.count
                          && message.endpoint == got.value.endpoint.(flags := UdpFlags(k))
                          && message.encrypted == (old(message.encrypted) || SecureAt(k))))
  {
    fds.ready := fds.ready - {sock};
    var count, ep := RecvMsg(message.data, recvOf(sock), message.endpoint, MulticastAt(k));
    if count < 0 {
      return StatusError;
    }
    message.length := count;
    message.endpoint := ep.(flags := UdpFlags(k));
    if SecureAt(k) {
      message.encrypted := true;
    }
    return StatusReceive;
  }

  /** What oc_udp_receive_message reports for a ready set, a buffer size
      and a fresh endpoint. */
  function UdpState(dev: IpContext, ready: set<int>, bufLen: nat, ep: Endpoint, recvOf: int -> RecvOutcome): ReceiveState {
    var k := FirstReady(UdpSockets(dev), ready);
    if k.None? then StatusNone
    else if Receive(bufLen, recvOf(UdpSockets(dev)[k.value]), ep, MulticastAt(k.value)).None? then StatusError
    else StatusReceive
  }

  /** A message handed on after a read event: a buffer of `pduSize` bytes for
      the device of `dev`.  When the UDP receive filled it, from the first
      ready UDP socket (the k-th), it holds the datagram at the front of its
      buffer, its byte count, the endpoint recv_msg built with that socket's
      flags, and `encrypted` exactly for a secure socket. */
  ghost predicate DeliveredMessage(m: Message, dev: IpContext, ready: set<int>, pduSize: nat, recvOf: int -> RecvOutcome)
    reads m, m.data
  {
    && m.endpoint.device == dev.device
    && m.data.Length == pduSize
    && var k := FirstReady(UdpSockets(dev), ready);
       k.Some? ==>
         var sock := UdpSockets(dev)[k.value];
         var got := Receive(pduSize, recvOf(sock), BlankEndpoint.(device := dev.device), MulticastAt(k.value));
         && got.Some?
         && m.length == got.value.count <= m.data.Length
         && m.data[..m.length] == recvOf(sock).datagram
         && m.endpoint == got.value.endpoint.(flags := UdpFlags(k.value))
         && m.encrypted == SecureAt(k.value)
  }

  /** The ready set after the UDP receive: the first ready UDP socket, if
      any, is taken out of it. */
  function AfterUdpReceive(dev: IpContext, ready: set<int>): (r: set<int>)
    ensures r <= ready
    ensures FirstReady(UdpSockets(dev), ready).None? <==> r == ready
    ensures FirstReady(UdpSockets(dev), ready).Some? ==> |ready - r| == 1
  {
    var k := FirstReady(UdpSockets(dev), ready);
    if k.None? then ready else ready - {UdpSockets(dev)[k.value]}
  }

  /** process_socket_read_event: -1 when no message can be allocated.
      Otherwise a fresh message of `pduSize` bytes for the device is filled
      by the UDP receive, or, when no UDP socket was ready, by the TCP
      receive, whose state is `tcpState` and which takes the descriptors
      `tcpTaken` out of the ready set; a received message is handed on
      (`delivered`), any other is released.  The result is 0 when neither
      had anything, else 1 (errors included). */
  method ProcessSocketReadEvent(dev: IpContext, fds: FdSet, pduSize: nat, canAllocate: bool,
                                recvOf: int -> RecvOutcome, tcpState: ReceiveState, tcpTaken: set<int>)
    returns (ret: int, delivered: Option<Message>)
    modifies fds
    ensures !canAllocate ==> ret == -1 && delivered.None? && fds.ready == old(fds.ready)
    ensures canAllocate ==>
      var udp := UdpState(dev, old(fds.ready), pduSize, BlankEndpoint.(device := dev.device), recvOf);
      var s := if udp == StatusNone then tcpState else udp;
      ret == (if s == StatusNone then 0 else 1)
      && (delivered.Some? <==> s == StatusReceive)
      && (delivered.Some? ==> fresh(delivered.value) && fresh(delivered.value.data))
      && (delivered.Some? ==> DeliveredMessage(delivered.value, dev, old(fds.ready), pduSize, recvOf))
      && fds.ready == (if udp == StatusNone then old(fds.ready) - tcpTaken else AfterUdpReceive(dev, old(fds.ready)))
  {
    if !canAllocate {
      return -1, None;
    }
    var message := new Message(pduSize, dev.device);
    ghost var k := FirstReady(UdpSockets(dev), fds.ready);
    ghost var buf := message.data[..];
    var s := UdpReceiveMessage(dev, fds, message, recvOf);
    if k.Some? {
      var sock := UdpSockets(dev)[k.value];
      if s == StatusReceive {
        assert message.data[..message.length] == recvOf(sock).datagram by {
          assert message.data[..] == Written(buf, recvOf(sock).datagram);
        }
      }
    }
    if s == StatusNone {
      s := tcpState;
      fds.ready := fds.ready - tcpTaken;
    }
    ret := if s == StatusNone then 0 else 1;
    delivered := if s == StatusReceive then Some(message) else None;
  }

  /** The handler process_event gave the event to. */
  datatype EventHandler = InterfaceChangeHandler | SignalHandler | ReadHandler | WriteHandler | NoHandler

  /** process_event: the handlers in priority order.  On device 0 a ready
      interface-change socket is taken out and handled first (the handler's
      result is only logged); then a ready TCP connect pipe; then a read
      event (the TCP receive taking `tcpTaken`), whose nonzero result is
      returned; then, when there is a write
      set, the write handler's nonzero result (`writeResult`); else 0. */
  method ProcessEvent(dev: IpContext, fds: FdSet, ifchangeSock: int, connectPipe: int, pduSize: nat, canAllocate: bool,
                      recvOf: int -> RecvOutcome, tcpState: ReceiveState, tcpTaken: set<int>, writeResult: Option<int>)
    returns (ret: int, handler: EventHandler, delivered: Option<Message>)
    modifies fds
    ensures dev.device == 0 && ifchangeSock in old(fds.ready) ==>
      ret == 1 && handler == InterfaceChangeHandler && fds.ready == old(fds.ready) - {ifchangeSock} && delivered.None?
    ensures !(dev.device == 0 && ifchangeSock in old(fds.ready)) && connectPipe in old(fds.ready) ==>
      ret == 1 && handler == SignalHandler && fds.ready == old(fds.ready) - {connectPipe} && delivered.None?
    ensures !(dev.device == 0 && ifchangeSock in old(fds.ready)) && connectPipe !in old(fds.ready) ==>
      var udp := UdpState(dev, old(fds.ready), pduSize, BlankEndpoint.(device := dev.device), recvOf);
      var s := if udp == StatusNone then tcpState else udp;
      var read := if !canAllocate then -1 else if s == StatusNone then 0 else 1;
      (read != 0 ==> ret == read && handler == ReadHandler)
      && (read == 0 && writeResult.Some? && writeResult.value != 0 ==> ret == writeResult.value && handler == WriteHandler)
      && (read == 0 && !(writeResult.Some? && writeResult.value != 0) ==> ret == 0 && handler == NoHandler)
      && (delivered.Some? <==> canAllocate && s == StatusReceive)
      && (delivered.Some? ==> fresh(delivered.value) && DeliveredMessage(delivered.value, dev, old(fds.ready), pduSize, recvOf))
      && fds.ready == (if !canAllocate then old(fds.ready)
                       else if udp == StatusNone then old(fds.ready) - tcpTaken
                       else AfterUdpReceive(dev, old(fds.ready)))
  {
    delivered := None;
    if dev.device == 0 && ifchangeSock in fds.ready {
      fds.ready := fds.ready - {ifchangeSock};
      return 1, InterfaceChangeHandler, None;
    }
    if connectPipe in fds.ready {
      fds.ready := fds.ready - {connectPipe};
      return 1, SignalHandler, None;
    }
    ret, delivered := ProcessSocketReadEvent(dev, fds, pduSize, canAllocate, recvOf, tcpState, tcpTaken);
    if ret != 0 {
      return ret, ReadHandler, delivered;
    }
    if writeResult.Some? && writeResult.value != 0 {
      return writeResult.value, WriteHandler, delivered;
    }
    return 0, NoHandler, delivered;
  }
}
