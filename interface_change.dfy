/** The handling of one RTM_NEWADDR / RTM_DELADDR notification batch from
    the netlink interface-change socket (process_interface_change_event):
    the known-interfaces list and its UP/DOWN events, the multicast joins on
    every device's multicast sockets, and the refresh bit of every context. */
module InterfaceChange {
  import opened Common
  import opened Endpoints
  import opened AddressSynthesis
  import opened IpContexts
  import opened Multicast
  import opened NetworkMonitor

  /** ifa_family of a notification: AF_INET, AF_INET6 or another family. */
  datatype MsgFamily = MsgInet | MsgInet6 | MsgOtherFamily(code: nat)

  /** A decoded message of the notification batch.  An RTM_NEWADDR carries
      ifa_family, ifa_index, ifa_scope and its attributes; an RTM_DELADDR
      its ifa_index; every other message type is skipped. */
  datatype ChangeMsg =
    | NewAddr(family: MsgFamily, record: AddrRecord)
    | DelAddr(index: Uint32)
    | OtherMessage(kind: nat)

  /** What the read of the socket gave: a failure of the size probe or of
      the read, a batch whose first message is NLMSG_ERROR, or the messages. */
  datatype ChangeRead = ChangeReadFailed | ChangeError | ChangeMessages(msgs: seq<ChangeMsg>)

  /** The known-interfaces list and the events fired so far. */
  datatype Monitor = Monitor(known: seq<int>, events: seq<InterfaceEvent>)

  /** One message's effect on the known-interfaces list: RTM_NEWADDR adds
      its index, firing UP iff the index was new and the pool had room;
      RTM_DELADDR removes it, firing DOWN iff it was known. */
  function MonitorStep(known: seq<int>, msg: ChangeMsg, capacity: nat): (r: Monitor)
    ensures r.events == [InterfaceUp] <==> msg.NewAddr? && ToInt32(msg.record.index) !in known && |known| < capacity
    ensures r.events == [InterfaceDown] <==> msg.DelAddr? && ToInt32(msg.index) in known
    ensures r.events == [] || r.events == [InterfaceUp] || r.events == [InterfaceDown]
    ensures msg.NewAddr? ==> r.known == AddInterface(known, ToInt32(msg.record.index), capacity)
    ensures msg.DelAddr? ==> r.known == RemoveFirst(known, ToInt32(msg.index))
    ensures msg.OtherMessage? ==> r == Monitor(known, [])
  {
    match msg
    case NewAddr(_, rec) =>
      var x := ToInt32(rec.index);
      if x !in known && |known| < capacity then Monitor(known + [x], [InterfaceUp]) else Monitor(known, [])
    case DelAddr(index) =>
      var x := ToInt32(index);
      if x in known then Monitor(RemoveFirst(known, x), [InterfaceDown]) else Monitor(known, [])
    case OtherMessage(_) => Monitor(known, [])
  }

  /** The list and the events after the messages, in order. */
  function MonitorFold(known: seq<int>, msgs: seq<ChangeMsg>, capacity: nat): (r: Monitor)
    ensures |r.events| <= |msgs|
    decreases |msgs|
  {
    if msgs == [] then Monitor(known, [])
    else
      var one := MonitorStep(known, msgs[0], capacity);
      var rest := MonitorFold(one.known, msgs[1..], capacity);
      Monitor(rest.known, one.events + rest.events)
  }

  function CountEvents(evs: seq<InterfaceEvent>, e: InterfaceEvent): nat
    decreases |evs|
  {
    if evs == [] then 0 else (if evs[0] == e then 1 else 0) + CountEvents(evs[1..], e)
  }

  lemma {:induction false} CountEventsAppend(a: seq<InterfaceEvent>, b: seq<InterfaceEvent>, e: InterfaceEvent)
    ensures CountEvents(a + b, e) == CountEvents(a, e) + CountEvents(b, e)
    decreases |a|
  {
    if a != [] {
      assert (a + b)[1..] == a[1..] + b;
      CountEventsAppend(a[1..], b, e);
    } else {
      assert a + b == b;
    }
  }

  /** The list stays bounded and duplicate-free, and it grows by one per UP
      event and shrinks by one per DOWN event. */
  lemma {:induction false} MonitorFoldBalance(known: seq<int>, msgs: seq<ChangeMsg>, capacity: nat)
    requires |known| <= capacity && NoDuplicates(known)
    ensures var r := MonitorFold(known, msgs, capacity);
      |r.known| <= capacity && NoDuplicates(r.known)
      && |r.known| + CountEvents(r.events, InterfaceDown) == |known| + CountEvents(r.events, InterfaceUp)
    decreases |msgs|
  {
    if msgs != [] {
      var one := MonitorStep(known, msgs[0], capacity);
      if msgs[0].DelAddr? {
        RemoveFirstNoDuplicates(known, ToInt32(msgs[0].index));
      }
      MonitorFoldBalance(one.known, msgs[1..], capacity);
      CountEventsAppend(one.events, MonitorFold(one.known, msgs[1..], capacity).events, InterfaceUp);
      CountEventsAppend(one.events, MonitorFold(one.known, msgs[1..], capacity).events, InterfaceDown);
    }
  }

  /** The joins for one device, if a context serves it: 224.0.1.187 on the
      IPv4 multicast socket with `local` as the local address, or the IPv6
      groups on the IPv6 multicast socket. */
  function JoinDevice(m: set<Membership>, dev: Option<IpContext>, family: IpFamily, local: Addr4, ifIndex: int, wkCore: bool, canJoin: Membership -> bool): (r: JoinOutcome)
    ensures r.status == 0 || r.status == -1
  {
    if dev.None? then JoinOutcome(m, 0)
    else if family == FamilyInet then JoinIpv4(m, dev.value.mcast4, local, ifIndex, canJoin)
    else JoinIpv6(m, dev.value.mcast, ifIndex, wkCore, canJoin)
  }

  /** The device loop, from device `i` on: the statuses are summed. */
  function JoinDevices(m: set<Membership>, contexts: seq<IpContext>, numDevices: nat, i: nat, family: IpFamily, local: Addr4, ifIndex: int, wkCore: bool, canJoin: Membership -> bool): (r: JoinOutcome)
    ensures r.status <= 0
    ensures i <= numDevices ==> -(numDevices - i) <= r.status
    decreases numDevices - i
  {
    if i >= numDevices then JoinOutcome(m, 0)
    else
      var one := JoinDevice(m, FindContext(contexts, i), family, local, ifIndex, wkCore, canJoin);
      var rest := JoinDevices(one.members, contexts, numDevices, i + 1, family, local, ifIndex, wkCore, canJoin);
      JoinOutcome(rest.members, one.status + rest.status)
  }

  /** The joins one IFA_ADDRESS attribute triggers: on every device for an
      AF_INET message, on every device for an AF_INET6 message of link
      scope, none otherwise. */
  function AttrJoins(m: set<Membership>, contexts: seq<IpContext>, numDevices: nat, family: MsgFamily, rec: AddrRecord, attr: AddrAttr, wkCore: bool, canJoin: Membership -> bool): (r: JoinOutcome)
    ensures r.status <= 0
    ensures !attr.IfaAddress? || family.MsgOtherFamily? || (family == MsgInet6 && rec.scope != RtScopeLink) ==> r == JoinOutcome(m, 0)
  {
    if !attr.IfaAddress? then JoinOutcome(m, 0)
    else if family == MsgInet then
      JoinDevices(m, contexts, numDevices, 0, FamilyInet, Fit(attr.data, 4), ToInt32(rec.index), wkCore, canJoin)
    else if family == MsgInet6 && rec.scope == RtScopeLink then
      JoinDevices(m, contexts, numDevices, 0, FamilyInet6, [0, 0, 0, 0], ToInt32(rec.index), wkCore, canJoin)
    else JoinOutcome(m, 0)
  }

  /** The attribute loop of one RTM_NEWADDR message. */
  function JoinAttrs(m: set<Membership>, contexts: seq<IpContext>, numDevices: nat, family: MsgFamily, rec: AddrRecord, attrs: seq<AddrAttr>, wkCore: bool, canJoin: Membership -> bool): (r: JoinOutcome)
    ensures r.status <= 0
    decreases |attrs|
  {
    if attrs == [] then JoinOutcome(m, 0)
    else
      var one := AttrJoins(m, contexts, numDevices, family, rec, attrs[0], wkCore, canJoin);
      var rest := JoinAttrs(one.members, contexts, numDevices, family, rec, attrs[1..], wkCore, canJoin);
      JoinOutcome(rest.members, one.status + rest.status)
  }

  /** The joins a message triggers: its attributes' for RTM_NEWADDR, none otherwise. */
  function MessageJoins(m: set<Membership>, contexts: seq<IpContext>, numDevices: nat, msg: ChangeMsg, wkCore: bool, canJoin: Membership -> bool): (r: JoinOutcome)
    ensures r.status <= 0
    ensures !msg.NewAddr? ==> r == JoinOutcome(m, 0)
  {
    if msg.NewAddr? then JoinAttrs(m, contexts, numDevices, msg.family, msg.record, msg.record.attrs, wkCore, canJoin)
    else JoinOutcome(m, 0)
  }

  /** The joins of the whole batch; the status is the sum of all join statuses. */
  function JoinMessages(m: set<Membership>, contexts: seq<IpContext>, numDevices: nat, msgs: seq<ChangeMsg>, wkCore: bool, canJoin: Membership -> bool): (r: JoinOutcome)
    ensures r.status <= 0
    decreases |msgs|
  {
    if msgs == [] then JoinOutcome(m, 0)
    else
      var one := MessageJoins(m, contexts, numDevices, msgs[0], wkCore, canJoin);
      var rest := JoinMessages(one.members, contexts, numDevices, msgs[1..], wkCore, canJoin);
      JoinOutcome(rest.members, one.status + rest.status)
  }

  /** Some message of the batch is an RTM_NEWADDR or an RTM_DELADDR. */
  predicate AddressChange(msgs: seq<ChangeMsg>) {
    exists k :: 0 <= k < |msgs| && (msgs[k].NewAddr? || msgs[k].DelAddr?)
  }

  /** A batch without RTM_NEWADDR messages joins nothing and reports 0. */
  lemma {:induction false} NoNewAddrNoJoins(m: set<Membership>, contexts: seq<IpContext>, numDevices: nat, msgs: seq<ChangeMsg>, wkCore: bool, canJoin: Membership -> bool)
    requires forall k :: 0 <= k < |msgs| ==> !msgs[k].NewAddr?
    ensures JoinMessages(m, contexts, numDevices, msgs, wkCore, canJoin) == JoinOutcome(m, 0)
    decreases |msgs|
  {
    if msgs != [] {
      assert !msgs[0].NewAddr?;
      NoNewAddrNoJoins(m, contexts, numDevices, msgs[1..], wkCore, canJoin);
    }
  }

  /** When the kernel accepts every join, the batch reports 0. */
  lemma {:induction false} AllJoinableNoError(m: set<Membership>, contexts: seq<IpContext>, numDevices: nat, msgs: seq<ChangeMsg>, wkCore: bool, canJoin: Membership -> bool)
    requires forall x :: canJoin(x)
    ensures JoinMessages(m, contexts, numDevices, msgs, wkCore, canJoin).status == 0
    decreases |msgs|
  {
    if msgs != [] {
      var one := MessageJoins(m, contexts, numDevices, msgs[0], wkCore, canJoin);
      if msgs[0].NewAddr? {
        AttrsAllJoinable(m, contexts, numDevices, msgs[0].family, msgs[0].record, msgs[0].record.attrs, wkCore, canJoin);
      }
      AllJoinableNoError(one.members, contexts, numDevices, msgs[1..], wkCore, canJoin);
    }
  }

  lemma {:induction false} AttrsAllJoinable(m: set<Membership>, contexts: seq<IpContext>, numDevices: nat, family: MsgFamily, rec: AddrRecord, attrs: seq<AddrAttr>, wkCore: bool, canJoin: Membership -> bool)
    requires forall x :: canJoin(x)
    ensures JoinAttrs(m, contexts, numDevices, family, rec, attrs, wkCore, canJoin).status == 0
    decreases |attrs|
  {
    if attrs != [] {
      var one := AttrJoins(m, contexts, numDevices, family, rec, attrs[0], wkCore, canJoin);
      if attrs[0].IfaAddress? && family == MsgInet {
        DevicesAllJoinable(m, contexts, numDevices, 0, FamilyInet, Fit(attrs[0].data, 4), ToInt32(rec.index), wkCore, canJoin);
      } else if attrs[0].IfaAddress? && family == MsgInet6 && rec.scope == RtScopeLink {
        DevicesAllJoinable(m, contexts, numDevices, 0, FamilyInet6, [0, 0, 0, 0], ToInt32(rec.index), wkCore, canJoin);
      }
      AttrsAllJoinable(one.members, contexts, numDevices, family, rec, attrs[1..], wkCore, canJoin);
    }
  }

  lemma {:induction false} DevicesAllJoinable(m: set<Membership>, contexts: seq<IpContext>, numDevices: nat, i: nat, family: IpFamily, local: Addr4, ifIndex: int, wkCore: bool, canJoin: Membership -> bool)
    requires forall x :: canJoin(x)
    ensures JoinDevices(m, contexts, numDevices, i, family, local, ifIndex, wkCore, canJoin).status == 0
    decreases numDevices - i
  {
    if i < numDevices {
      var one := JoinDevice(m, FindContext(contexts, i), family, local, ifIndex, wkCore, canJoin);
      assert one.status == 0;
      DevicesAllJoinable(one.members, contexts, numDevices, i + 1, family, local, ifIndex, wkCore, canJoin);
    }
  }

  /** One context per device number. */
  predicate DistinctDevices(contexts: seq<IpContext>) {
    forall i, j :: 0 <= i < j < |contexts| ==> contexts[i].device != contexts[j].device
  }

  /** process_interface_change_event: -1, nothing changed, when the read
      fails or the batch starts with NLMSG_ERROR.  Otherwise the messages
      update the known-interfaces list and fire its events, trigger the
      multicast joins whose statuses are summed into the result, and, when
      some address was added or removed, every device's context below
      `numDevices` gets its refresh bit set, its other bits kept. */
  method ProcessInterfaceChangeEvent(ifList: InterfaceList, contexts: seq<IpContext>, numDevices: nat, read: ChangeRead,
                                     m: set<Membership>, wkCore: bool, canJoin: Membership -> bool)
    returns (ret: int, members: set<Membership>, events: seq<InterfaceEvent>)
    requires ifList.Valid() && DistinctDevices(contexts)
    modifies ifList, set c | c in contexts
    ensures ifList.Valid()
    ensures !read.ChangeMessages? ==> ret == -1 && members == m && events == [] && ifList.items == old(ifList.items)
    ensures read.ChangeMessages? ==>
      var joins := JoinMessages(m, contexts, numDevices, read.msgs, wkCore, canJoin);
      var mon := MonitorFold(old(ifList.items), read.msgs, ifList.capacity);
      ret == joins.status && members == joins.members && events == mon.events && ifList.items == mon.known
    ensures forall c :: c in contexts ==> c.eps == old(c.eps)
    ensures forall c :: c in contexts ==>
      c.flags == if read.ChangeMessages? && AddressChange(read.msgs) && c.device < numDevices then SetRefresh(old(c.flags)) else old(c.flags)
  {
    if !read.ChangeMessages? {
      return -1, m, [];
    }
    var changed;
    ret, members, events, changed := HandleMessages(ifList, contexts, numDevices, read.msgs, m, wkCore, canJoin);
    if changed {
      MarkRefresh(contexts, numDevices);
    }
  }

  /** The message loop of process_interface_change_event. */
  method HandleMessages(ifList: InterfaceList, contexts: seq<IpContext>, numDevices: nat, msgs: seq<ChangeMsg>,
                        m: set<Membership>, wkCore: bool, canJoin: Membership -> bool)
    returns (ret: int, members: set<Membership>, events: seq<InterfaceEvent>, changed: bool)
    requires ifList.Valid()
    modifies ifList
    ensures ifList.Valid()
    ensures JoinOutcome(members, ret) == JoinMessages(m, contexts, numDevices, msgs, wkCore, canJoin)
    ensures Monitor(ifList.items, events) == MonitorFold(old(ifList.items), msgs, ifList.capacity)
    ensures changed == AddressChange(msgs)
  {
    ret, members, events, changed := 0, m, [], false;
    var i := 0;
    while i < |msgs|
      invariant 0 <= i <= |msgs| && ifList.Valid()
      invariant JoinMessages(m, contexts, numDevices, msgs, wkCore, canJoin)
        == AddStatus(JoinMessages(members, contexts, numDevices, msgs[i..], wkCore, canJoin), ret)
      invariant MonitorFold(old(ifList.items), msgs, ifList.capacity)
        == PrependEvents(events, MonitorFold(ifList.items, msgs[i..], ifList.capacity))
      invariant changed == AddressChange(msgs[..i])
    {
      assert msgs[i..][1..] == msgs[i + 1..];
      MonitorPrepend(events, ifList.items, msgs[i..], ifList.capacity);
      AddressChangeStep(msgs, i);
      var status, evs;
      status, members, evs := HandleMessage(ifList, contexts, numDevices, msgs[i], members, wkCore, canJoin);
      ret := ret + status;
      events := events + evs;
      if msgs[i].NewAddr? || msgs[i].DelAddr? {
        changed := true;
      }
      i := i + 1;
    }
    assert msgs[..i] == msgs;
  }

  function PrependEvents(evs: seq<InterfaceEvent>, r: Monitor): Monitor {
    Monitor(r.known, evs + r.events)
  }

  lemma MonitorPrepend(evs: seq<InterfaceEvent>, known: seq<int>, msgs: seq<ChangeMsg>, capacity: nat)
    requires msgs != []
    ensures var one := MonitorStep(known, msgs[0], capacity);
      PrependEvents(evs, MonitorFold(known, msgs, capacity)) == PrependEvents(evs + one.events, MonitorFold(one.known, msgs[1..], capacity))
  {
    var one := MonitorStep(known, msgs[0], capacity);
    var rest := MonitorFold(one.known, msgs[1..], capacity);
    assert evs + (one.events + rest.events) == (evs + one.events) + rest.events;
  }

  lemma AddressChangeStep(msgs: seq<ChangeMsg>, i: nat)
    requires i < |msgs|
    ensures AddressChange(msgs[..i + 1]) <==> AddressChange(msgs[..i]) || msgs[i].NewAddr? || msgs[i].DelAddr?
  {
    assert msgs[..i + 1][i] == msgs[i];
    assert forall k :: 0 <= k < i ==> msgs[..i + 1][k] == msgs[..i][k];
  }

  /** One message: RTM_NEWADDR adds the index (UP when it was new), then
      joins per IFA_ADDRESS attribute; RTM_DELADDR removes the index (DOWN
      when it was known); other messages are skipped. */
  method HandleMessage(ifList: InterfaceList, contexts: seq<IpContext>, numDevices: nat, msg: ChangeMsg,
                       m: set<Membership>, wkCore: bool, canJoin: Membership -> bool)
    returns (status: int, members: set<Membership>, evs: seq<InterfaceEvent>)
    requires ifList.Valid()
    modifies ifList
    ensures ifList.Valid()
    ensures JoinOutcome(members, status) == MessageJoins(m, contexts, numDevices, msg, wkCore, canJoin)
    ensures Monitor(ifList.items, evs) == MonitorStep(old(ifList.items), msg, ifList.capacity)
  {
    status, members, evs := 0, m, [];
    match msg {
      case NewAddr(family, rec) =>
        var added := ifList.Add(ToInt32(rec.index));
        if added {
          evs := [InterfaceUp];
        }
        status, members := JoinAttrsLoop(contexts, numDevices, family, rec, m, wkCore, canJoin);
      case DelAddr(index) =>
        var removed := ifList.Remove(ToInt32(index));
        if removed {
          evs := [InterfaceDown];
        }
      case OtherMessage(_) =>
    }
  }

  /** The attribute loop of one RTM_NEWADDR message. */
  method JoinAttrsLoop(contexts: seq<IpContext>, numDevices: nat, family: MsgFamily, rec: AddrRecord,
                       m: set<Membership>, wkCore: bool, canJoin: Membership -> bool)
    returns (ret: int, members: set<Membership>)
    ensures JoinOutcome(members, ret) == JoinAttrs(m, contexts, numDevices, family, rec, rec.attrs, wkCore, canJoin)
  {
    var attrs := rec.attrs;
    ret, members := 0, m;
    var i := 0;
    while i < |attrs|
      invariant 0 <= i <= |attrs|
      invariant JoinAttrs(m, contexts, numDevices, family, rec, attrs, wkCore, canJoin)
        == AddStatus(JoinAttrs(members, contexts, numDevices, family, rec, attrs[i..], wkCore, canJoin), ret)
    {
      assert attrs[i..][1..] == attrs[i + 1..];
      var one := JoinOutcome(members, 0);
      if attrs[i].IfaAddress? {
        if family == MsgInet {
          one := JoinDevicesLoop(contexts, numDevices, FamilyInet, Fit(attrs[i].data, 4), ToInt32(rec.index), members, wkCore, canJoin);
        } else if family == MsgInet6 && rec.scope == RtScopeLink {
          one := JoinDevicesLoop(contexts, numDevices, FamilyInet6, [0, 0, 0, 0], ToInt32(rec.index), members, wkCore, canJoin);
        }
      }
      ret := ret + one.status;
      members := one.members;
      i := i + 1;
    }
  }

  /** The device loop: each device number below `numDevices` is looked up
      and, when a context serves it, its multicast socket joins. */
  method JoinDevicesLoop(contexts: seq<IpContext>, numDevices: nat, family: IpFamily, local: Addr4, ifIndex: int,
                         m: set<Membership>, wkCore: bool, canJoin: Membership -> bool)
    returns (one: JoinOutcome)
    ensures one == JoinDevices(m, contexts, numDevices, 0, family, local, ifIndex, wkCore, canJoin)
  {
    var ret, members := 0, m;
    var i := 0;
    while i < numDevices
      invariant 0 <= i <= numDevices
      invariant JoinDevices(m, contexts, numDevices, 0, family, local, ifIndex, wkCore, canJoin).members
        == JoinDevices(members, contexts, numDevices, i, family, local, ifIndex, wkCore, canJoin).members
      invariant JoinDevices(m, contexts, numDevices, 0, family, local, ifIndex, wkCore, canJoin).status
        == ret + JoinDevices(members, contexts, numDevices, i, family, local, ifIndex, wkCore, canJoin).status
    {
      var one := JoinOnDeviceAt(contexts, i, family, local, ifIndex, members, wkCore, canJoin);
      JoinDevicesStep(members, contexts, numDevices, i, family, local, ifIndex, wkCore, canJoin);
      ret, members := ret + one.status, one.members;
      i := i + 1;
    }
    return JoinOutcome(members, ret);
  }

  /** One turn of the device loop: the context of device `i`, if any, joins. */
  method JoinOnDeviceAt(contexts: seq<IpContext>, i: nat, family: IpFamily, local: Addr4, ifIndex: int,
                        m: set<Membership>, wkCore: bool, canJoin: Membership -> bool)
    returns (one: JoinOutcome)
    ensures one == JoinDevice(m, FindContext(contexts, i), family, local, ifIndex, wkCore, canJoin)
  {
    var dev := GetIpContextForDevice(contexts, i);
    if dev.Some? {
      one := JoinOnDevice(dev.value, family, local, ifIndex, m, wkCore, canJoin);
    } else {
      one := JoinOutcome(m, 0);
    }
  }

  /** The join on the multicast socket of one device's context. */
  method JoinOnDevice(dev: IpContext, family: IpFamily, local: Addr4, ifIndex: int,
                      m: set<Membership>, wkCore: bool, canJoin: Membership -> bool)
    returns (r: JoinOutcome)
    ensures r == JoinDevice(m, Some(dev), family, local, ifIndex, wkCore, canJoin)
  {
    if family == FamilyInet {
      r := JoinIpv4(m, dev.mcast4, local, ifIndex, canJoin);
    } else {
      r := JoinIpv6(m, dev.mcast, ifIndex, wkCore, canJoin);
    }
  }

  lemma JoinDevicesStep(m: set<Membership>, contexts: seq<IpContext>, numDevices: nat, i: nat, family: IpFamily, local: Addr4, ifIndex: int, wkCore: bool, canJoin: Membership -> bool)
    requires i < numDevices
    ensures var one := JoinDevice(m, FindContext(contexts, i), family, local, ifIndex, wkCore, canJoin);
      JoinDevices(m, contexts, numDevices, i, family, local, ifIndex, wkCore, canJoin)
        == AddStatus(JoinDevices(one.members, contexts, numDevices, i + 1, family, local, ifIndex, wkCore, canJoin), one.status)
  {
  }

  /** The flag loop: the context of every device below `numDevices` gets its
      refresh bit set. */
  method MarkRefresh(contexts: seq<IpContext>, numDevices: nat)
    requires DistinctDevices(contexts)
    modifies set c | c in contexts
    ensures forall c :: c in contexts ==> c.eps == old(c.eps)
    ensures forall c :: c in contexts ==> c.flags == if c.device < numDevices then SetRefresh(old(c.flags)) else old(c.flags)
  {
    var i := 0;
    while i < numDevices
      invariant 0 <= i <= numDevices
      invariant forall c :: c in contexts ==> c.eps == old(c.eps)
      invariant forall c :: c in contexts ==> c.flags == if c.device < i then SetRefresh(old(c.flags)) else old(c.flags)
    {
      var dev := GetIpContextForDevice(contexts, i);
      if dev.Some? {
        dev.value.RequestRefresh();
      }
      i := i + 1;
    }
  }
}
