/** The per-device IP context (ip_context_t): its ports and sockets, its flag
    byte and its endpoint list, whose entries come from a pool shared by all
    devices (g_device_eps) — and the operations that rebuild the list. */
module IpContexts {
  import opened Common
  import opened Endpoints
  import opened AddressSynthesis

  /** IP_CONTEXT_FLAG_REFRESH_ENDPOINT_LIST. */
  const RefreshBit: bv8 := 0x01

  /** The flag byte with the refresh bit cleared. */
  function ClearRefresh(f: bv8): (r: bv8)
    ensures r & RefreshBit == 0
    ensures r & !RefreshBit == f & !RefreshBit
  {
    f & !RefreshBit
  }

  /** Clearing a bit that is not set changes nothing. */
  lemma ClearRefreshUnset(f: bv8)
    requires f & RefreshBit == 0
    ensures ClearRefresh(f) == f
  {
  }

  /** The flag byte with the refresh bit set. */
  function SetRefresh(f: bv8): (r: bv8)
    ensures r & RefreshBit == RefreshBit
    ensures r & !RefreshBit == f & !RefreshBit
  {
    f | RefreshBit
  }

  /** Setting a bit that is already set changes nothing. */
  lemma SetRefreshSet(f: bv8)
    requires f & RefreshBit != 0
    ensures SetRefresh(f) == f
  {
  }

  /** The endpoint pool: `capacity` entries (8 * OC_MAX_NUM_DEVICES), `used` of them allocated. */
  class EndpointPool {
    const capacity: nat
    var used: nat

    ghost predicate Valid()
      reads this
    {
      used <= capacity
    }

    constructor (capacity: nat)
      ensures Valid() && used == 0 && this.capacity == capacity
    {
      this.capacity := capacity;
      used := 0;
    }
  }

  /** The attribute walk of one address record. */
  method ScanAttributes(attrs: seq<AddrAttr>) returns (address: Option<seq<Byte>>, temporary: bool)
    ensures address == LastAddress(attrs)
    ensures temporary == HasTemporaryFlag(attrs)
  {
    address := None;
    temporary := false;
    var i := 0;
    while i < |attrs|
      invariant 0 <= i <= |attrs|
      invariant address == LastAddress(attrs[..i])
      invariant temporary == HasTemporaryFlag(attrs[..i])
    {
      assert attrs[..i + 1][..i] == attrs[..i];
      match attrs[i] {
        case IfaAddress(data) =>
          address := Some(data);
        case IfaFlags(bits) =>
          if bits & IfaFTemporary != 0 {
            temporary := true;
          }
        case OtherAttr(_) =>
      }
      i := i + 1;
    }
    assert attrs[..i] == attrs;
  }

  /** The endpoint a below-host-scope record yields: the record is walked
      (interface index, then each attribute), and when no IFA_F_TEMPORARY flag
      excluded it, scope id, SECURED, port and TCP are filled in. */
  method WalkRecord(rec: AddrRecord, q: AddrQuery) returns (ep: Endpoint, included: bool)
    ensures included == !HasTemporaryFlag(rec.attrs)
    ensures included ==> ep == BuildEndpoint(rec, q)
  {
    ep := BlankEndpoint.(interfaceIndex := rec.index);
    included := true;
    var address, temporary := ScanAttributes(rec.attrs);
    if address.Some? {
      if q.family == FamilyInet {
        ep := ep.(v4 := ep.v4.(address := Fit(address.value, 4)), flags := {Ipv4});
      } else {
        ep := ep.(v6 := ep.v6.(address := Fit(address.value, 16)), flags := {Ipv6});
      }
    }
    if temporary {
      included := false;
    }
    if included {
      if rec.scope == RtScopeLink && q.family == FamilyInet6 {
        ep := ep.(v6 := ep.v6.(scope := ToUint8(rec.index)));
      }
      if q.secure {
        ep := ep.(flags := ep.flags + {Secured});
      }
      if q.family == FamilyInet {
        ep := ep.(v4 := ep.v4.(port := q.port));
      } else {
        ep := ep.(v6 := ep.v6.(port := q.port));
      }
      if q.tcp {
        ep := ep.(flags := ep.flags + {Tcp});
      }
    }
  }

  class IpContext {
    const device: nat
    /** UDP ports: unsecured and DTLS, IPv6 and IPv4; TCP ports: plain and TLS, IPv6 and IPv4. */
    const port: Uint16
    const dtlsPort: Uint16
    const port4: Uint16
    const dtls4Port: Uint16
    const tcpPort: Uint16
    const tlsPort: Uint16
    const tcpPort4: Uint16
    const tls4Port: Uint16
    /** UDP sockets. */
    const server: int
    const mcast: int
    const secure: int
    const server4: int
    const mcast4: int
    const secure4: int
    var flags: bv8
    var eps: seq<Endpoint>

    constructor (device: nat, ports: seq<Uint16>, socks: seq<int>)
      requires |ports| == 8 && |socks| == 6
      ensures this.device == device && flags == 0 && eps == []
      ensures [port, dtlsPort, port4, dtls4Port, tcpPort, tlsPort, tcpPort4, tls4Port] == ports
      ensures [server, mcast, secure, server4, mcast4, secure4] == socks
    {
      this.device := device;
      port, dtlsPort, port4, dtls4Port := ports[0], ports[1], ports[2], ports[3];
      tcpPort, tlsPort, tcpPort4, tls4Port := ports[4], ports[5], ports[6], ports[7];
      server, mcast, secure := socks[0], socks[1], socks[2];
      server4, mcast4, secure4 := socks[3], socks[4], socks[5];
      flags := 0;
      eps := [];
    }

    /** The eight get_interface_addresses calls of refresh_endpoints_list, in order. */
    function RefreshQueries(): (r: seq<AddrQuery>)
      ensures |r| == 8
    {
      [AddrQuery(FamilyInet6, port, false, false), AddrQuery(FamilyInet6, dtlsPort, true, false),
       AddrQuery(FamilyInet, port4, false, false), AddrQuery(FamilyInet, dtls4Port, true, false),
       AddrQuery(FamilyInet6, tcpPort, false, true), AddrQuery(FamilyInet6, tlsPort, true, true),
       AddrQuery(FamilyInet, tcpPort4, false, true), AddrQuery(FamilyInet, tls4Port, true, true)]
    }

    /** The queries alternate plain and secure, run IPv6 twice then IPv4
        twice, and the last four are the TCP ones. */
    lemma RefreshQueriesOrder()
      ensures forall k :: 0 <= k < 8 ==> RefreshQueries()[k].secure == (k % 2 == 1) && RefreshQueries()[k].tcp == (k >= 4)
      ensures forall k :: 0 <= k < 8 ==> RefreshQueries()[k].family == if k % 4 < 2 then FamilyInet6 else FamilyInet
    {
    }

    /** The list refresh_endpoints_list builds with `free` pool entries
        available: the eight queries' endpoints, in order. */
    function Refreshed(dumpOf: nat -> AddrDump, free: nat): (r: seq<Endpoint>)
      ensures |r| <= free
    {
      RefreshPrefix(RefreshQueries(), 8, dumpOf, free)
    }

    /** get_interface_addresses: appends the endpoints synthesized from `dump`
        to `eps`, taking each from the pool; false on a failed or truncated
        dump or an empty pool, with what was appended kept. */
    method GetInterfaceAddresses(pool: EndpointPool, dump: AddrDump, q: AddrQuery) returns (ok: bool)
      requires pool.Valid()
      modifies this, pool
      ensures pool.Valid() && flags == old(flags)
      ensures var want := GetAddresses(dump, pool.capacity - old(pool.used), q);
        ok == want.ok && eps == old(eps) + want.added && pool.used == old(pool.used) + |want.added|
    {
      if dump.DumpUnavailable? {
        return false;
      }
      ok := ReadDump(pool, dump.batches, q);
    }

    /** The batch loop of get_interface_addresses, from no previous index (-1):
        each recv'd batch is checked for a read failure and NLMSG_ERROR, then
        its messages are walked. */
    method ReadDump(pool: EndpointPool, batches: seq<DumpBatch>, q: AddrQuery) returns (ok: bool)
      requires pool.Valid()
      modifies this, pool
      ensures pool.Valid() && flags == old(flags)
      ensures var want := Walk(batches, [], -1, pool.capacity - old(pool.used), q);
        ok == want.ok && eps == old(eps) + want.added && pool.used == old(pool.used) + |want.added|
    {
      ghost var want := Walk(batches, [], -1, pool.capacity - pool.used, q);
      ghost var added: seq<Endpoint> := [];
      ghost var free: nat := pool.capacity - pool.used;
      var prev := -1;
      var i := 0;
      while i < |batches|
        invariant 0 <= i <= |batches|
        invariant pool.Valid() && flags == old(flags) && free == pool.capacity - pool.used
        invariant eps == old(eps) + added
        invariant pool.used == old(pool.used) + |added|
        invariant want == PrependDump(added, Walk(batches[i..], [], prev, free, q))
      {
        assert batches[i..][1..] == batches[i + 1..];
        WalkBatchStep(batches[i..], prev, free, q);
        match batches[i] {
          case BatchReadError =>
            assert added + [] == added;
            return false;
          case BatchError =>
            assert added + [] == added;
            return false;
          case Batch(items) =>
            var end;
            ghost var more;
            prev, end, more := ReadBatch(pool, items, prev, q, batches[i + 1..], free);
            Assoc(old(eps), added, more);
            if end != ItemsExhausted {
              return end == SawDone;
            }
            added := added + more;
            free := free - |more|;
        }
        i := i + 1;
      }
      assert added + [] == added;
      return false;
    }

    /** The message walk over one batch; `later` are the batches still to
        come and `free` the pool entries left. */
    method ReadBatch(pool: EndpointPool, items: seq<DumpItem>, prev0: int, q: AddrQuery, ghost later: seq<DumpBatch>, ghost free: nat)
      returns (prev: int, end: ItemsEnd, ghost added: seq<Endpoint>)
      requires pool.Valid() && free == pool.capacity - pool.used
      modifies this, pool
      ensures pool.Valid() && flags == old(flags)
      ensures eps == old(eps) + added && pool.used == old(pool.used) + |added| && |added| <= free
      ensures end == ItemsExhausted ==>
        Walk(later, items, prev0, free, q) == PrependDump(added, Walk(later, [], prev, free - |added|, q))
      ensures end != ItemsExhausted ==> Walk(later, items, prev0, free, q) == DumpResult(end == SawDone, added)
    {
      ghost var want := Walk(later, items, prev0, free, q);
      ghost var left := free;
      added := [];
      prev := prev0;
      var j := 0;
      while j < |items|
        invariant 0 <= j <= |items|
        invariant pool.Valid() && flags == old(flags) && left == pool.capacity - pool.used
        invariant eps == old(eps) + added
        invariant pool.used == old(pool.used) + |added| && left == free - |added|
        invariant want == PrependDump(added, Walk(later, items[j..], prev, left, q))
      {
        assert items[j..][1..] == items[j + 1..];
        WalkStep(later, items[j..], prev, left, q);
        match items[j] {
          case DoneMarker =>
            assert added + [] == added;
            return prev, SawDone, added;
          case Address(rec) =>
            ghost var prev1 := prev;
            var full;
            prev, full := ReadAddress(pool, rec, prev, q);
            if full {
              assert added + [] == added;
              return prev, PoolEmpty, added;
            }
            if Included(rec, prev1) {
              left := left - 1;
              ghost var rest := Walk(later, items[j + 1..], prev, left, q);
              Assoc(old(eps), added, [BuildEndpoint(rec, q)]);
              Assoc(added, [BuildEndpoint(rec, q)], rest.added);
              added := added + [BuildEndpoint(rec, q)];
            }
        }
        j := j + 1;
      }
      return prev, ItemsExhausted, added;
    }

    /** One address message of the walk: skipped at host scope or beyond, or
        when its interface index is the previous one; else its attributes are
        walked and, unless it is temporary, it becomes the previous index and
        its endpoint is appended.  `full` when the pool had no entry left. */
    method ReadAddress(pool: EndpointPool, rec: AddrRecord, prev0: int, q: AddrQuery) returns (prev: int, full: bool)
      requires pool.Valid()
      modifies this`eps, pool
      ensures pool.Valid()
      ensures !Included(rec, prev0) ==> prev == prev0 && !full && eps == old(eps) && pool.used == old(pool.used)
      ensures Included(rec, prev0) ==> prev == ToInt32(rec.index) && full == (old(pool.used) >= pool.capacity)
      ensures Included(rec, prev0) && full ==> eps == old(eps) && pool.used == old(pool.used)
      ensures Included(rec, prev0) && !full ==> eps == old(eps) + [BuildEndpoint(rec, q)] && pool.used == old(pool.used) + 1
    {
      prev, full := prev0, false;
      if rec.scope < RtScopeHost && ToInt32(rec.index) != prev {
        var ep, included := WalkRecord(rec, q);
        if included {
          prev := ToInt32(rec.index);
          var taken := AddEndpoint(pool, ep);
          full := !taken;
        }
      }
    }

    /** oc_memb_alloc from the pool, then oc_list_add: false, with nothing
        changed, when the pool is exhausted. */
    method AddEndpoint(pool: EndpointPool, ep: Endpoint) returns (taken: bool)
      requires pool.Valid()
      modifies this`eps, pool
      ensures pool.Valid()
      ensures taken == (old(pool.used) < pool.capacity)
      ensures taken ==> eps == old(eps) + [ep] && pool.used == old(pool.used) + 1
      ensures !taken ==> eps == old(eps) && pool.used == old(pool.used)
    {
      if pool.used >= pool.capacity {
        return false;
      }
      pool.used := pool.used + 1;
      eps := eps + [ep];
      return true;
    }

    /** free_endpoints_list: pops every endpoint back into the pool. */
    method FreeEndpointsList(pool: EndpointPool)
      requires pool.Valid() && |eps| <= pool.used
      modifies this, pool
      ensures pool.Valid() && eps == []
      ensures pool.used == old(pool.used) - |old(eps)|
      ensures flags == old(flags)
    {
      while eps != []
        invariant pool.Valid() && |eps| <= pool.used && flags == old(flags)
        invariant pool.used - |eps| == old(pool.used) - |old(eps)|
        decreases |eps|
      {
        eps := eps[1..];
        pool.used := pool.used - 1;
      }
    }

    /** refresh_endpoints_list: empties the list, then runs the eight queries
        in order; `dumpOf(k)` is the kernel's reply to the k-th query.  A
        failed query does not stop the later ones.  The list may use the pool
        entries left free plus those it held before. */
    method RefreshEndpointsList(pool: EndpointPool, dumpOf: nat -> AddrDump, ghost free: nat)
      requires pool.Valid() && |eps| <= pool.used && free == pool.capacity - pool.used + |eps|
      modifies this, pool
      ensures pool.Valid() && flags == old(flags)
      ensures eps == Refreshed(dumpOf, free) && free == pool.capacity - pool.used + |eps|
    {
      FreeEndpointsList(pool);
      RefreshUdp(pool, dumpOf, free);
      RefreshTcp(pool, dumpOf, free);
    }

    /** The four UDP queries: IPv6, secure IPv6, IPv4, secure IPv4. */
    method RefreshUdp(pool: EndpointPool, dumpOf: nat -> AddrDump, ghost free: nat)
      requires pool.Valid() && eps == [] && free == pool.capacity - pool.used
      modifies this, pool
      ensures pool.Valid() && flags == old(flags)
      ensures eps == RefreshPrefix(RefreshQueries(), 4, dumpOf, free) && free == pool.capacity - pool.used + |eps|
    {
      ghost var qs := RefreshQueries();
      ghost var k := 0;
      RunQuery(pool, dumpOf(0), AddrQuery(FamilyInet6, port, false, false), qs, k, dumpOf, free);
      k := k + 1;
      RunQuery(pool, dumpOf(1), AddrQuery(FamilyInet6, dtlsPort, true, false), qs, k, dumpOf, free);
      k := k + 1;
      RunQuery(pool, dumpOf(2), AddrQuery(FamilyInet, port4, false, false), qs, k, dumpOf, free);
      k := k + 1;
      RunQuery(pool, dumpOf(3), AddrQuery(FamilyInet, dtls4Port, true, false), qs, k, dumpOf, free);
    }

    /** The four TCP queries, in the same order. */
    method RefreshTcp(pool: EndpointPool, dumpOf: nat -> AddrDump, ghost free: nat)
      requires pool.Valid() && eps == RefreshPrefix(RefreshQueries(), 4, dumpOf, free)
      requires free == pool.capacity - pool.used + |eps|
      modifies this, pool
      ensures pool.Valid() && flags == old(flags)
      ensures eps == Refreshed(dumpOf, free) && free == pool.capacity - pool.used + |eps|
    {
      ghost var qs := RefreshQueries();
      ghost var k := 4;
      RunQuery(pool, dumpOf(4), AddrQuery(FamilyInet6, tcpPort, false, true), qs, k, dumpOf, free);
      k := k + 1;
      RunQuery(pool, dumpOf(5), AddrQuery(FamilyInet6, tlsPort, true, true), qs, k, dumpOf, free);
      k := k + 1;
      RunQuery(pool, dumpOf(6), AddrQuery(FamilyInet, tcpPort4, false, true), qs, k, dumpOf, free);
      k := k + 1;
      RunQuery(pool, dumpOf(7), AddrQuery(FamilyInet, tls4Port, true, true), qs, k, dumpOf, free);
    }

    /** One get_interface_addresses call of refresh_endpoints_list, the k-th
        query; its status is only logged, so the later queries still run. */
    method RunQuery(pool: EndpointPool, dump: AddrDump, q: AddrQuery, ghost qs: seq<AddrQuery>, ghost k: nat, ghost dumpOf: nat -> AddrDump, ghost free: nat)
      requires pool.Valid() && k < |qs| && qs[k] == q && dumpOf(k) == dump
      requires eps == RefreshPrefix(qs, k, dumpOf, free) && free == pool.capacity - pool.used + |eps|
      modifies this, pool
      ensures pool.Valid() && flags == old(flags)
      ensures eps == RefreshPrefix(qs, k + 1, dumpOf, free) && free == pool.capacity - pool.used + |eps|
    {
      var _ := GetInterfaceAddresses(pool, dump, q);
    }

    /** oc_connectivity_get_endpoints for this context: clears the refresh
        bit and rebuilds the list iff the bit was set or the list was empty;
        otherwise the cached list is returned untouched. */
    method GetEndpoints(pool: EndpointPool, dumpOf: nat -> AddrDump, ghost free: nat) returns (r: seq<Endpoint>)
      requires pool.Valid() && |eps| <= pool.used && free == pool.capacity - pool.used + |eps|
      modifies this, pool
      ensures pool.Valid() && free == pool.capacity - pool.used + |eps|
      ensures flags == ClearRefresh(old(flags))
      ensures r == eps
      ensures (old(flags) & RefreshBit != 0 || old(eps) == []) ==> eps == Refreshed(dumpOf, free)
      ensures !(old(flags) & RefreshBit != 0 || old(eps) == []) ==> eps == old(eps) && pool.used == old(pool.used)
    {
      var refresh := TakeRefresh();
      if refresh || |eps| == 0 {
        RefreshEndpointsList(pool, dumpOf, free);
      }
      return eps;
    }

    /** The compare-and-swap loop of process_interface_change_event, as one
        atomic step: sets the refresh bit unless it is set already. */
    method RequestRefresh()
      modifies this`flags
      ensures flags == SetRefresh(old(flags))
    {
      if flags & RefreshBit == 0 {
        flags := SetRefresh(flags);
      } else {
        SetRefreshSet(flags);
      }
    }

    /** The compare-and-swap loop of oc_connectivity_get_endpoints, as one
        atomic step: clears the refresh bit and says whether it was set. */
    method TakeRefresh() returns (refresh: bool)
      modifies this`flags
      ensures refresh == (old(flags) & RefreshBit != 0)
      ensures flags == ClearRefresh(old(flags))
    {
      refresh := false;
      if flags & RefreshBit != 0 {
        flags := ClearRefresh(flags);
        refresh := true;
      } else {
        ClearRefreshUnset(flags);
      }
    }
  }

  /** The context of `device` in the list of contexts (g_ip_contexts): the
      first one whose device number matches, none if there is none. */
  function FindContext(contexts: seq<IpContext>, device: nat): (r: Option<IpContext>)
    ensures r.None? <==> forall c :: c in contexts ==> c.device != device
    ensures r.Some? ==> r.value in contexts && r.value.device == device
  {
    if contexts == [] then None
    else if contexts[0].device == device then Some(contexts[0])
    else FindContext(contexts[1..], device)
  }

  /** oc_get_ip_context_for_device: the walk of the context list. */
  method GetIpContextForDevice(contexts: seq<IpContext>, device: nat) returns (r: Option<IpContext>)
    ensures r == FindContext(contexts, device)
  {
    var i := 0;
    while i < |contexts| && contexts[i].device != device
      invariant 0 <= i <= |contexts|
      invariant FindContext(contexts, device) == FindContext(contexts[i..], device)
    {
      assert contexts[i..][1..] == contexts[i + 1..];
      i := i + 1;
    }
    if i == |contexts| {
      return None;
    }
    return Some(contexts[i]);
  }

  /** The objects a call for `device` may change: its context, if any. */
  function ContextFrame(contexts: seq<IpContext>, device: nat): set<object> {
    if FindContext(contexts, device).Some? then {FindContext(contexts, device).value} else {}
  }

  /** oc_connectivity_get_endpoints: NULL (none) when no context serves
      `device`; otherwise that context's list, refreshed as GetEndpoints
      says.  No other context changes. */
  method ConnectivityGetEndpoints(contexts: seq<IpContext>, device: nat, pool: EndpointPool, dumpOf: nat -> AddrDump)
    returns (r: Option<seq<Endpoint>>, ghost free: nat)
    requires pool.Valid()
    requires forall c :: c in contexts ==> |c.eps| <= pool.used
    modifies ContextFrame(contexts, device), pool
    ensures pool.Valid()
    ensures FindContext(contexts, device).None? ==> r.None? && pool.used == old(pool.used)
    ensures FindContext(contexts, device).Some? ==>
      var dev := FindContext(contexts, device).value;
      r == Some(dev.eps) && dev.flags == ClearRefresh(old(dev.flags))
      && free == old(pool.capacity - pool.used + |dev.eps|)
      && ((old(dev.flags) & RefreshBit != 0 || old(dev.eps) == []) ==> dev.eps == dev.Refreshed(dumpOf, free))
      && (!(old(dev.flags) & RefreshBit != 0 || old(dev.eps) == []) ==> dev.eps == old(dev.eps) && pool.used == old(pool.used))
  {
    var dev := GetIpContextForDevice(contexts, device);
    free := 0;
    if dev.None? {
      return None, free;
    }
    var ctx := dev.value;
    free := pool.capacity - pool.used + |ctx.eps|;
    var eps := ctx.GetEndpoints(pool, dumpOf, free);
    return Some(eps), free;
  }

  /** Why the message walk of one batch stopped. */
  datatype ItemsEnd = ItemsExhausted | SawDone | PoolEmpty

  function PrependDump(a: seq<Endpoint>, r: DumpResult): DumpResult {
    DumpResult(r.ok, a + r.added)
  }

  /** How the walk unfolds when the messages at hand are used up. */
  lemma WalkBatchStep(batches: seq<DumpBatch>, prev: int, free: nat, q: AddrQuery)
    requires batches != []
    ensures !batches[0].Batch? ==> Walk(batches, [], prev, free, q) == DumpResult(false, [])
    ensures batches[0].Batch? ==> Walk(batches, [], prev, free, q) == Walk(batches[1..], batches[0].items, prev, free, q)
  {
  }

  /** How the walk unfolds at a message. */
  lemma WalkStep(later: seq<DumpBatch>, items: seq<DumpItem>, prev: int, free: nat, q: AddrQuery)
    requires items != []
    ensures items[0].DoneMarker? ==> Walk(later, items, prev, free, q) == DumpResult(true, [])
    ensures items[0].Address? && !Included(items[0].record, prev) ==>
      Walk(later, items, prev, free, q) == Walk(later, items[1..], prev, free, q)
    ensures items[0].Address? && Included(items[0].record, prev) && free == 0 ==>
      Walk(later, items, prev, free, q) == DumpResult(false, [])
    ensures items[0].Address? && Included(items[0].record, prev) && free > 0 ==>
      Walk(later, items, prev, free, q)
        == PrependDump([BuildEndpoint(items[0].record, q)], Walk(later, items[1..], ToInt32(items[0].record.index), free - 1, q))
  {
  }

  lemma Assoc(a: seq<Endpoint>, b: seq<Endpoint>, c: seq<Endpoint>)
    ensures (a + b) + c == a + (b + c)
  {
  }

  /** The list after the first `n` queries of `qs`, started with `free`
      pool entries; `dumpOf(k)` is the reply to query k. */
  function RefreshPrefix(qs: seq<AddrQuery>, n: nat, dumpOf: nat -> AddrDump, free: nat): (r: seq<Endpoint>)
    requires n <= |qs|
    ensures |r| <= free
    decreases n
  {
    if n == 0 then []
    else
      var p := RefreshPrefix(qs, n - 1, dumpOf, free);
      p + GetAddresses(dumpOf(n - 1), free - |p|, qs[n - 1]).added
  }
}
