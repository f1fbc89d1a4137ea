/** Multicast group membership of the IP adapter's multicast sockets:
    which interfaces are joined to which groups, and the status each join
    sequence reports.  The kernel's membership table is a set passed in and
    returned; whether the kernel accepts one IP_ADD_MEMBERSHIP request is the
    oracle `canJoin`. */
module Multicast {
  import opened Common
  import opened Endpoints

  /** ff02::158, ff03::158, ff05::158: All OCF Nodes, link-, realm- and site-local. */
  const AllOcfNodesLinkLocal: Addr16 := [0xff, 0x02, 0, 0, 0, 0, 0, 0, 0, 0, 0, 0, 0, 0, 0x01, 0x58]
  const AllOcfNodesRealmLocal: Addr16 := [0xff, 0x03, 0, 0, 0, 0, 0, 0, 0, 0, 0, 0, 0, 0, 0x01, 0x58]
  const AllOcfNodesSiteLocal: Addr16 := [0xff, 0x05, 0, 0, 0, 0, 0, 0, 0, 0, 0, 0, 0, 0, 0x01, 0x58]
  /** ff02::fd, ff03::fd, ff05::fd: All CoAP Nodes (section 12.8 of RFC 7252). */
  const AllCoapNodesLinkLocal: Addr16 := [0xff, 0x02, 0, 0, 0, 0, 0, 0, 0, 0, 0, 0, 0, 0, 0, 0xfd]
  const AllCoapNodesRealmLocal: Addr16 := [0xff, 0x03, 0, 0, 0, 0, 0, 0, 0, 0, 0, 0, 0, 0, 0, 0xfd]
  const AllCoapNodesSiteLocal: Addr16 := [0xff, 0x05, 0, 0, 0, 0, 0, 0, 0, 0, 0, 0, 0, 0, 0, 0xfd]
  /** 224.0.1.187 (0xe00001bb): All CoAP Nodes over IPv4. */
  const AllCoapNodesV4: Addr4 := [0xe0, 0x00, 0x01, 0xbb]

  /** One group membership of one socket on one interface.  `local` is the
      local IPv4 address given in an ip_mreqn request, empty for IPv6. */
  datatype Membership = Membership(sock: int, group: seq<Byte>, ifIndex: int, local: seq<Byte>)

  datatype JoinOutcome = JoinOutcome(members: set<Membership>, status: int)

  /** The IPv6 groups joined per interface, in the order they are joined. */
  function Ipv6Groups(wkCore: bool): (r: seq<Addr16>)
    ensures |r| == if wkCore then 6 else 3
    ensures r[0] == AllOcfNodesLinkLocal && r[1] == AllOcfNodesRealmLocal && r[2] == AllOcfNodesSiteLocal
    ensures wkCore ==> r[3] == AllCoapNodesLinkLocal && r[4] == AllCoapNodesRealmLocal && r[5] == AllCoapNodesSiteLocal
  {
    [AllOcfNodesLinkLocal, AllOcfNodesRealmLocal, AllOcfNodesSiteLocal]
      + if wkCore then [AllCoapNodesLinkLocal, AllCoapNodesRealmLocal, AllCoapNodesSiteLocal] else []
  }

  /** IN6_IS_ADDR_LINKLOCAL: the address lies in fe80::/10 (section 2.5.6 of RFC 4291). */
  predicate IsLinkLocal(a: Addr16) {
    a[0] == 0xfe && a[1] & 0xc0 == 0x80
  }

  /** A drop of `x` followed by an add of `x` that the kernel accepts iff `canJoin(x)`. */
  function Rejoin(m: set<Membership>, x: Membership, canJoin: Membership -> bool): (r: set<Membership>)
    ensures x in r <==> canJoin(x)
    ensures forall y :: y != x ==> (y in r <==> y in m)
  {
    if canJoin(x) then (m - {x}) + {x} else m - {x}
  }

  function Request(sock: int, ifIndex: int, local: seq<Byte>, g: seq<Byte>): Membership {
    Membership(sock, g, ifIndex, local)
  }

  /** The joins attempted for `groups`: all of them up to and including the first the kernel refuses. */
  function Attempted(sock: int, ifIndex: int, local: seq<Byte>, groups: seq<seq<Byte>>, canJoin: Membership -> bool): (r: seq<Membership>)
    ensures |r| <= |groups|
    ensures forall k :: 0 <= k < |r| ==> r[k] == Request(sock, ifIndex, local, groups[k])
    ensures forall k :: 0 <= k < |r| - 1 ==> canJoin(r[k])
    ensures |r| < |groups| ==> |r| > 0 && !canJoin(r[|r| - 1])
    decreases |groups|
  {
    if groups == [] then []
    else
      var x := Request(sock, ifIndex, local, groups[0]);
      if canJoin(x) then [x] + Attempted(sock, ifIndex, local, groups[1..], canJoin) else [x]
  }

  /** Joins `groups` one after the other on one socket and interface, stopping
      at the first refused join with status -1; 0 when every join succeeded. */
  function JoinGroups(m: set<Membership>, sock: int, ifIndex: int, local: seq<Byte>, groups: seq<seq<Byte>>, canJoin: Membership -> bool): (r: JoinOutcome)
    ensures r.status == 0 || r.status == -1
    ensures r.status == 0 <==> forall g :: g in groups ==> canJoin(Request(sock, ifIndex, local, g))
    ensures forall y :: y in r.members <==> if y in Attempted(sock, ifIndex, local, groups, canJoin) then canJoin(y) else y in m
    decreases |groups|
  {
    if groups == [] then JoinOutcome(m, 0)
    else
      var x := Request(sock, ifIndex, local, groups[0]);
      var m1 := Rejoin(m, x, canJoin);
      if !canJoin(x) then JoinOutcome(m1, -1)
      else
        var rest := JoinGroups(m1, sock, ifIndex, local, groups[1..], canJoin);
        assert forall g :: g in groups ==> g == groups[0] || g in groups[1..];
        rest
  }

  /** What a join sequence leaves in the membership table: when it reports
      0 every group is joined on the socket and interface; memberships of
      other sockets, interfaces or local addresses are never touched. */
  lemma JoinGroupsMembers(m: set<Membership>, sock: int, ifIndex: int, local: seq<Byte>, groups: seq<seq<Byte>>, canJoin: Membership -> bool)
    ensures var r := JoinGroups(m, sock, ifIndex, local, groups, canJoin);
      r.status == 0 ==> forall k :: 0 <= k < |groups| ==> Request(sock, ifIndex, local, groups[k]) in r.members
    ensures var r := JoinGroups(m, sock, ifIndex, local, groups, canJoin);
      forall y: Membership :: y.sock != sock || y.ifIndex != ifIndex || y.local != local ==> (y in r.members <==> y in m)
  {
    var a := Attempted(sock, ifIndex, local, groups, canJoin);
    var r := JoinGroups(m, sock, ifIndex, local, groups, canJoin);
    if r.status == 0 {
      forall k | 0 <= k < |groups|
        ensures Request(sock, ifIndex, local, groups[k]) in r.members
      {
        assert a[k] == Request(sock, ifIndex, local, groups[k]);
        assert groups[k] in groups;
      }
    }
  }

  /** add_mcast_sock_to_ipv6_mcast_group: the All OCF Nodes groups (and the
      All CoAP Nodes groups when `wkCore`) on one interface, each dropped and
      re-added, stopping at the first refusal. */
  function JoinIpv6(m: set<Membership>, sock: int, ifIndex: int, wkCore: bool, canJoin: Membership -> bool): (r: JoinOutcome)
    ensures r.status == 0 || r.status == -1
    ensures r.status == 0 <==> forall k :: 0 <= k < |Ipv6Groups(wkCore)| ==> canJoin(Request(sock, ifIndex, [], Ipv6Groups(wkCore)[k]))
    ensures r.status == 0 ==> forall k :: 0 <= k < |Ipv6Groups(wkCore)| ==> Request(sock, ifIndex, [], Ipv6Groups(wkCore)[k]) in r.members
    ensures forall y: Membership :: y.sock != sock || y.ifIndex != ifIndex || y.local != [] ==> (y in r.members <==> y in m)
  {
    var gs := Ipv6Groups(wkCore);
    JoinGroupsMembers(m, sock, ifIndex, [], gs, canJoin);
    assert forall g :: g in gs <==> exists k :: 0 <= k < |gs| && gs[k] == g;
    JoinGroups(m, sock, ifIndex, [], gs, canJoin)
  }

  /** add_mcast_sock_to_ipv4_mcast_group: 224.0.1.187 on one interface and
      local address, dropped and re-added. */
  function JoinIpv4(m: set<Membership>, sock: int, local: Addr4, ifIndex: int, canJoin: Membership -> bool): (r: JoinOutcome)
    ensures r.status == 0 <==> canJoin(Request(sock, ifIndex, local, AllCoapNodesV4))
    ensures r.status == -1 <==> !canJoin(Request(sock, ifIndex, local, AllCoapNodesV4))
    ensures Request(sock, ifIndex, local, AllCoapNodesV4) in r.members <==> canJoin(Request(sock, ifIndex, local, AllCoapNodesV4))
    ensures forall y :: y != Request(sock, ifIndex, local, AllCoapNodesV4) ==> (y in r.members <==> y in m)
  {
    JoinGroups(m, sock, ifIndex, local, [AllCoapNodesV4], canJoin)
  }

  lemma {:induction false} JoinIpv6AllOrFirstFailure(m: set<Membership>, sock: int, ifIndex: int, wkCore: bool, canJoin: Membership -> bool, k: nat)
    requires k < |Ipv6Groups(wkCore)|
    requires !canJoin(Request(sock, ifIndex, [], Ipv6Groups(wkCore)[k]))
    requires forall j :: 0 <= j < k ==> canJoin(Request(sock, ifIndex, [], Ipv6Groups(wkCore)[j]))
    ensures JoinIpv6(m, sock, ifIndex, wkCore, canJoin).status == -1
    ensures forall j :: k < j < |Ipv6Groups(wkCore)| ==>
      var y := Request(sock, ifIndex, [], Ipv6Groups(wkCore)[j]);
      (y in JoinIpv6(m, sock, ifIndex, wkCore, canJoin).members <==> y in m)
  {
    var gs := Ipv6Groups(wkCore);
    var a := Attempted(sock, ifIndex, [], gs, canJoin);
    AttemptedLength(sock, ifIndex, [], gs, canJoin, k);
    forall j | k < j < |gs|
      ensures Request(sock, ifIndex, [], gs[j]) !in a
    {
      forall i | 0 <= i < |a|
        ensures a[i] != Request(sock, ifIndex, [], gs[j])
      {
        assert gs[i] != gs[j] by { assert gs[i][1] != gs[j][1] || gs[i][15] != gs[j][15]; }
      }
    }
  }

  /** When group `k` is the first refused one, exactly `k + 1` joins are attempted. */
  lemma {:induction false} AttemptedLength(sock: int, ifIndex: int, local: seq<Byte>, groups: seq<seq<Byte>>, canJoin: Membership -> bool, k: nat)
    requires k < |groups|
    requires !canJoin(Request(sock, ifIndex, local, groups[k]))
    requires forall j :: 0 <= j < k ==> canJoin(Request(sock, ifIndex, local, groups[j]))
    ensures |Attempted(sock, ifIndex, local, groups, canJoin)| == k + 1
    decreases k
  {
    if k > 0 {
      AttemptedLength(sock, ifIndex, local, groups[1..], canJoin, k - 1);
    }
  }

  predicate FamilyMatches(a: IfSockAddr, family: IpFamily) {
    match a
    case IfInet6(_) => family == FamilyInet6
    case IfInet(_) => family == FamilyInet
    case IfOtherFamily(_) => false
  }

  /** The entries configure_mcast_socket joins on: up, not loopback, with an
      address of the socket's family, and for IPv6 a link-local one. */
  predicate Eligible(e: IfAddrEntry, family: IpFamily) {
    e.up && !e.loopback && e.addr.Some? && FamilyMatches(e.addr.value, family)
    && (e.addr.value.IfInet6? ==> IsLinkLocal(e.addr.value.address6))
  }

  /** The joins attempted for one entry: none unless it is eligible. */
  function EntryAttempted(sock: int, e: IfAddrEntry, family: IpFamily, wkCore: bool, canJoin: Membership -> bool): seq<Membership>
  {
    if !Eligible(e, family) then []
    else match e.addr.value
      case IfInet6(_) => Attempted(sock, e.ifIndex, [], Ipv6Groups(wkCore), canJoin)
      case IfInet(a4) => Attempted(sock, e.ifIndex, a4, [AllCoapNodesV4], canJoin)
  }

  /** The joins configure_mcast_socket attempts for a list of entries. */
  function AllAttempted(sock: int, ifs: seq<IfAddrEntry>, family: IpFamily, wkCore: bool, canJoin: Membership -> bool): seq<Membership>
  {
    if ifs == [] then []
    else EntryAttempted(sock, ifs[0], family, wkCore, canJoin) + AllAttempted(sock, ifs[1..], family, wkCore, canJoin)
  }

  /** The status and memberships left by one entry of the loop. */
  function EntryStep(m: set<Membership>, sock: int, e: IfAddrEntry, family: IpFamily, wkCore: bool, canJoin: Membership -> bool): (r: JoinOutcome)
    ensures r.status == 0 || r.status == -1
    ensures r.status == 0 <==> forall y :: y in EntryAttempted(sock, e, family, wkCore, canJoin) ==> canJoin(y)
    ensures forall y :: y in r.members <==> if y in EntryAttempted(sock, e, family, wkCore, canJoin) then canJoin(y) else y in m
  {
    if !Eligible(e, family) then JoinOutcome(m, 0)
    else match e.addr.value
      case IfInet6(_) =>
        AttemptedAllJoinable(sock, e.ifIndex, [], Ipv6Groups(wkCore), canJoin);
        JoinIpv6(m, sock, e.ifIndex, wkCore, canJoin)
      case IfInet(a4) =>
        AttemptedAllJoinable(sock, e.ifIndex, a4, [AllCoapNodesV4], canJoin);
        JoinIpv4(m, sock, a4, e.ifIndex, canJoin)
  }

  /** The loop of configure_mcast_socket over the entries, as a fold: the
      statuses of the eligible entries are summed. */
  function ConfigureFold(m: set<Membership>, sock: int, ifs: seq<IfAddrEntry>, family: IpFamily, wkCore: bool, canJoin: Membership -> bool): (r: JoinOutcome)
    ensures -|ifs| <= r.status <= 0
    ensures forall y :: y in r.members <==> if y in AllAttempted(sock, ifs, family, wkCore, canJoin) then canJoin(y) else y in m
    ensures r.status == 0 <==> forall y :: y in AllAttempted(sock, ifs, family, wkCore, canJoin) ==> canJoin(y)
    decreases |ifs|
  {
    if ifs == [] then JoinOutcome(m, 0)
    else
      var one := EntryStep(m, sock, ifs[0], family, wkCore, canJoin);
      var rest := ConfigureFold(one.members, sock, ifs[1..], family, wkCore, canJoin);
      JoinOutcome(rest.members, one.status + rest.status)
  }

  /** Every attempted join succeeded iff every group was joinable. */
  lemma {:induction false} AttemptedAllJoinable(sock: int, ifIndex: int, local: seq<Byte>, groups: seq<seq<Byte>>, canJoin: Membership -> bool)
    ensures (forall y :: y in Attempted(sock, ifIndex, local, groups, canJoin) ==> canJoin(y))
        <==> (forall g :: g in groups ==> canJoin(Request(sock, ifIndex, local, g)))
    decreases |groups|
  {
    if groups != [] {
      AttemptedAllJoinable(sock, ifIndex, local, groups[1..], canJoin);
      assert forall g :: g in groups ==> g == groups[0] || g in groups[1..];
    }
  }

  /** configure_mcast_socket.  `ifs` is the getifaddrs result (None when it
      fails, giving -1); every eligible entry's joins are made and their
      statuses summed. */
  method ConfigureMcastSocket(m: set<Membership>, sock: int, family: IpFamily, ifs: Option<seq<IfAddrEntry>>, wkCore: bool, canJoin: Membership -> bool)
    returns (ret: int, members: set<Membership>)
    ensures ifs.None? ==> ret == -1 && members == m
    ensures ifs.Some? ==> JoinOutcome(members, ret) == ConfigureFold(m, sock, ifs.value, family, wkCore, canJoin)
  {
    if ifs.None? {
      return -1, m;
    }
    var list := ifs.value;
    ret := 0;
    members := m;
    var i := 0;
    while i < |list|
      invariant 0 <= i <= |list|
      invariant ConfigureFold(m, sock, list, family, wkCore, canJoin).members == ConfigureFold(members, sock, list[i..], family, wkCore, canJoin).members
      invariant ConfigureFold(m, sock, list, family, wkCore, canJoin).status == ret + ConfigureFold(members, sock, list[i..], family, wkCore, canJoin).status
    {
      ConfigureFoldStep(members, sock, list[i..], family, wkCore, canJoin);
      assert list[i..][1..] == list[i + 1..];
      var one := JoinEntry(members, sock, list[i], family, wkCore, canJoin);
      ret := ret + one.status;
      members := one.members;
      i := i + 1;
    }
  }

  /** The outcome `o` with `base` added to its status. */
  function AddStatus(o: JoinOutcome, base: int): JoinOutcome {
    JoinOutcome(o.members, base + o.status)
  }

  /** One turn of the fold: the first entry's step, then the rest. */
  lemma ConfigureFoldStep(m: set<Membership>, sock: int, ifs: seq<IfAddrEntry>, family: IpFamily, wkCore: bool, canJoin: Membership -> bool)
    requires ifs != []
    ensures ConfigureFold(m, sock, ifs, family, wkCore, canJoin)
      == AddStatus(ConfigureFold(EntryStep(m, sock, ifs[0], family, wkCore, canJoin).members, sock, ifs[1..], family, wkCore, canJoin),
                   EntryStep(m, sock, ifs[0], family, wkCore, canJoin).status)
  {
  }

  /** The body of the loop for one entry: skip it unless it is eligible,
      otherwise join the IPv6 or the IPv4 groups on its interface. */
  method JoinEntry(m: set<Membership>, sock: int, e: IfAddrEntry, family: IpFamily, wkCore: bool, canJoin: Membership -> bool)
    returns (one: JoinOutcome)
    ensures one == EntryStep(m, sock, e, family, wkCore, canJoin)
  {
    one := JoinOutcome(m, 0);
    if Eligible(e, family) {
      match e.addr.value {
        case IfInet6(_) =>
          one := JoinIpv6(m, sock, e.ifIndex, wkCore, canJoin);
        case IfInet(a4) =>
          one := JoinIpv4(m, sock, a4, e.ifIndex, canJoin);
      }
    }
  }

  /** Only eligible entries (up, not loopback, right family, link-local for
      IPv6) are joined: every attempted membership is on the given socket and
      on the index of an eligible entry. */
  lemma {:induction false} OnlyEligibleJoined(sock: int, ifs: seq<IfAddrEntry>, family: IpFamily, wkCore: bool, canJoin: Membership -> bool, y: Membership)
    requires y in AllAttempted(sock, ifs, family, wkCore, canJoin)
    ensures y.sock == sock
    ensures exists e :: e in ifs && Eligible(e, family) && e.ifIndex == y.ifIndex
    decreases |ifs|
  {
    var e := ifs[0];
    var rest := AllAttempted(sock, ifs[1..], family, wkCore, canJoin);
    if y in rest {
      OnlyEligibleJoined(sock, ifs[1..], family, wkCore, canJoin, y);
      var e' :| e' in ifs[1..] && Eligible(e', family) && e'.ifIndex == y.ifIndex;
      assert e' in ifs;
    } else {
      assert Eligible(e, family);
      var here := EntryAttempted(sock, e, family, wkCore, canJoin);
      assert y in here;
      var k :| 0 <= k < |here| && here[k] == y;
      assert e in ifs;
    }
  }

  /** When the kernel accepts every join, configure_mcast_socket returns 0 and
      every eligible entry ends up joined to every group of its family. */
  lemma {:induction false} AllJoinsSucceed(m: set<Membership>, sock: int, ifs: seq<IfAddrEntry>, family: IpFamily, wkCore: bool, canJoin: Membership -> bool)
    requires forall x :: canJoin(x)
    ensures ConfigureFold(m, sock, ifs, family, wkCore, canJoin).status == 0
    ensures forall e, g :: e in ifs && Eligible(e, family) && e.addr.value.IfInet6? && g in Ipv6Groups(wkCore) ==>
      Request(sock, e.ifIndex, [], g) in ConfigureFold(m, sock, ifs, family, wkCore, canJoin).members
    ensures forall e :: e in ifs && Eligible(e, family) && e.addr.value.IfInet? ==>
      Request(sock, e.ifIndex, e.addr.value.address4, AllCoapNodesV4) in ConfigureFold(m, sock, ifs, family, wkCore, canJoin).members
    decreases |ifs|
  {
    var all := AllAttempted(sock, ifs, family, wkCore, canJoin);
    forall e, g | e in ifs && Eligible(e, family) && e.addr.value.IfInet6? && g in Ipv6Groups(wkCore)
      ensures Request(sock, e.ifIndex, [], g) in all
    {
      EligibleAttempted(sock, ifs, family, wkCore, canJoin, e);
      AttemptedEverything(sock, e.ifIndex, [], Ipv6Groups(wkCore), canJoin, g);
    }
    forall e | e in ifs && Eligible(e, family) && e.addr.value.IfInet?
      ensures Request(sock, e.ifIndex, e.addr.value.address4, AllCoapNodesV4) in all
    {
      EligibleAttempted(sock, ifs, family, wkCore, canJoin, e);
      AttemptedEverything(sock, e.ifIndex, e.addr.value.address4, [AllCoapNodesV4], canJoin, AllCoapNodesV4);
    }
  }

  lemma {:induction false} AttemptedEverything(sock: int, ifIndex: int, local: seq<Byte>, groups: seq<seq<Byte>>, canJoin: Membership -> bool, g: seq<Byte>)
    requires forall x :: canJoin(x)
    requires g in groups
    ensures Request(sock, ifIndex, local, g) in Attempted(sock, ifIndex, local, groups, canJoin)
    decreases |groups|
  {
    if groups[0] != g {
      AttemptedEverything(sock, ifIndex, local, groups[1..], canJoin, g);
    }
  }

  /** The attempts of an eligible entry are part of the attempts of the whole list. */
  lemma {:induction false} EligibleAttempted(sock: int, ifs: seq<IfAddrEntry>, family: IpFamily, wkCore: bool, canJoin: Membership -> bool, e: IfAddrEntry)
    requires e in ifs && Eligible(e, family)
    ensures e.addr.value.IfInet6? ==> forall y :: y in Attempted(sock, e.ifIndex, [], Ipv6Groups(wkCore), canJoin) ==> y in AllAttempted(sock, ifs, family, wkCore, canJoin)
    ensures e.addr.value.IfInet? ==> forall y :: y in Attempted(sock, e.ifIndex, e.addr.value.address4, [AllCoapNodesV4], canJoin) ==> y in AllAttempted(sock, ifs, family, wkCore, canJoin)
    decreases |ifs|
  {
    if ifs[0] != e {
      EligibleAttempted(sock, ifs[1..], family, wkCore, canJoin, e);
    }
  }
}
