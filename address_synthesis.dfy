/** Endpoint synthesis from an RTM_GETADDR dump (get_interface_addresses):
    which address records become endpoints, and what each endpoint holds. */
module AddressSynthesis {
  import opened Common
  import opened Endpoints

  /** rtnetlink scopes (RT_SCOPE_LINK, RT_SCOPE_HOST) and IFA_F_TEMPORARY. */
  const RtScopeLink: nat := 253
  const RtScopeHost: nat := 254
  const IfaFTemporary: bv32 := 0x01

  /** A decoded rtattr of an address message.  IFA_FLAGS carries a 32-bit word. */
  datatype AddrAttr = IfaAddress(data: seq<Byte>) | IfaFlags(bits: bv32) | OtherAttr(kind: nat)

  /** A decoded RTM_NEWADDR message of the dump: ifa_index, ifa_scope and the attributes. */
  datatype AddrRecord = AddrRecord(index: Uint32, scope: nat, attrs: seq<AddrAttr>)

  /** A message of one received batch: an address record, or NLMSG_DONE. */
  datatype DumpItem = Address(record: AddrRecord) | DoneMarker

  /** One recv of the dump: a read failure, a batch whose first message is
      NLMSG_ERROR, or the messages of the batch. */
  datatype DumpBatch = BatchReadError | BatchError | Batch(items: seq<DumpItem>)

  /** The reply to one RTM_GETADDR request: unavailable when the netlink
      socket, the send or the select fails; else the batches read in turn. */
  datatype AddrDump = DumpUnavailable | Dump(batches: seq<DumpBatch>)

  /** The arguments of one get_interface_addresses call besides the context. */
  datatype AddrQuery = AddrQuery(family: IpFamily, port: Uint16, secure: bool, tcp: bool)

  /** The payload of the last IFA_ADDRESS attribute, if any. */
  function LastAddress(attrs: seq<AddrAttr>): Option<seq<Byte>>
    decreases |attrs|
  {
    if attrs == [] then None
    else if attrs[|attrs| - 1].IfaAddress? then Some(attrs[|attrs| - 1].data)
    else LastAddress(attrs[..|attrs| - 1])
  }

  /** Some IFA_FLAGS word of the record has IFA_F_TEMPORARY set. */
  predicate HasTemporaryFlag(attrs: seq<AddrAttr>)
    decreases |attrs|
  {
    attrs != [] &&
    ((attrs[|attrs| - 1].IfaFlags? && attrs[|attrs| - 1].bits & IfaFTemporary != 0)
     || HasTemporaryFlag(attrs[..|attrs| - 1]))
  }

  /** No IFA_ADDRESS attribute follows position `k`. */
  predicate LastOfKind(attrs: seq<AddrAttr>, k: nat)
    requires k < |attrs|
  {
    forall j :: k < j < |attrs| ==> !attrs[j].IfaAddress?
  }

  /** LastAddress is the payload of the last IFA_ADDRESS attribute, and none when there is none. */
  lemma {:induction false} LastAddressIsLast(attrs: seq<AddrAttr>)
    ensures LastAddress(attrs).None? <==> forall k :: 0 <= k < |attrs| ==> !attrs[k].IfaAddress?
    ensures LastAddress(attrs).Some? ==>
      exists k :: 0 <= k < |attrs| && attrs[k] == IfaAddress(LastAddress(attrs).value) && LastOfKind(attrs, k)
    decreases |attrs|
  {
    if attrs != [] {
      var before := attrs[..|attrs| - 1];
      assert forall k :: 0 <= k < |before| ==> before[k] == attrs[k];
      if attrs[|attrs| - 1].IfaAddress? {
        assert LastOfKind(attrs, |attrs| - 1);
      } else {
        LastAddressIsLast(before);
        if LastAddress(before).Some? {
          var k :| 0 <= k < |before| && before[k] == IfaAddress(LastAddress(before).value) && LastOfKind(before, k);
          assert LastOfKind(attrs, k);
        }
      }
    }
  }

  /** HasTemporaryFlag holds iff some IFA_FLAGS attribute has IFA_F_TEMPORARY set. */
  lemma {:induction false} TemporaryFlagSomewhere(attrs: seq<AddrAttr>)
    ensures HasTemporaryFlag(attrs) <==> exists k :: 0 <= k < |attrs| && attrs[k].IfaFlags? && attrs[k].bits & IfaFTemporary != 0
    decreases |attrs|
  {
    if attrs != [] {
      var before := attrs[..|attrs| - 1];
      assert forall k :: 0 <= k < |before| ==> before[k] == attrs[k];
      TemporaryFlagSomewhere(before);
    }
  }

  /** The record becomes an endpoint: scope below host, index (as a C int)
      different from the previously included one, and not temporary. */
  predicate Included(r: AddrRecord, prev: int) {
    r.scope < RtScopeHost && ToInt32(r.index) != prev && !HasTemporaryFlag(r.attrs)
  }

  function FamilyFlag(family: IpFamily): TransportFlag {
    if family == FamilyInet6 then Ipv6 else Ipv4
  }

  /** The endpoint built from an included record: zeroed, then the interface
      index, the address and family flag of the last IFA_ADDRESS, the IPv6
      scope id for link scope, the port, SECURED and TCP. */
  function BuildEndpoint(r: AddrRecord, q: AddrQuery): (e: Endpoint)
    ensures e.interfaceIndex == r.index
    ensures Secured in e.flags <==> q.secure
    ensures Tcp in e.flags <==> q.tcp
    ensures e.flags - {Secured, Tcp} == (if LastAddress(r.attrs).Some? then {FamilyFlag(q.family)} else {})
    ensures q.family == FamilyInet6 ==> e.v6.port == q.port && e.v4 == ZeroIpv4
    ensures q.family == FamilyInet ==> e.v4.port == q.port && e.v6 == ZeroIpv6
    ensures e.v6.scope == (if q.family == FamilyInet6 && r.scope == RtScopeLink then ToUint8(r.index) else 0)
    ensures e.device == 0 && e.local6 == ZeroAddr16 && e.local4 == ZeroIpv4.address
  {
    var address := LastAddress(r.attrs);
    var family := if address.Some? then {FamilyFlag(q.family)} else {};
    var flags := family + (if q.secure then {Secured} else {}) + (if q.tcp then {Tcp} else {});
    var data := if address.Some? then address.value else [];
    var v6 :=
      if q.family == FamilyInet6 then
        Ipv6Addr(q.port, if address.Some? then Fit(data, 16) else ZeroAddr16,
                 if r.scope == RtScopeLink then ToUint8(r.index) else 0)
      else ZeroIpv6;
    var v4 :=
      if q.family == FamilyInet then
        Ipv4Addr(q.port, if address.Some? then Fit(data, 4) else ZeroIpv4.address)
      else ZeroIpv4;
    Endpoint(0, flags, v6, v4, ZeroAddr16, ZeroIpv4.address, r.index)
  }

  /** The outcome of one get_interface_addresses call: its status and the
      endpoints it appended. */
  datatype DumpResult = DumpResult(ok: bool, added: seq<Endpoint>)

  /** The two nested loops of get_interface_addresses: `items` are the
      messages left in the batch at hand, `batches` the recvs still to come,
      `prev` the interface index last included and `free` the entries left in
      the pool.  NLMSG_DONE ends the walk with true; a read failure, an
      NLMSG_ERROR batch or an empty pool end it with false.  Running out of
      batches before NLMSG_DONE counts as a read failure. */
  function Walk(batches: seq<DumpBatch>, items: seq<DumpItem>, prev: int, free: nat, q: AddrQuery): (r: DumpResult)
    ensures |r.added| <= free
    decreases |batches|, |items|
  {
    if items != [] then
      match items[0]
      case DoneMarker => DumpResult(true, [])
      case Address(rec) =>
        if !Included(rec, prev) then Walk(batches, items[1..], prev, free, q)
        else if free == 0 then DumpResult(false, [])
        else
          var rest := Walk(batches, items[1..], ToInt32(rec.index), free - 1, q);
          DumpResult(rest.ok, [BuildEndpoint(rec, q)] + rest.added)
    else if batches == [] then DumpResult(false, [])
    else match batches[0]
      case Batch(next) => Walk(batches[1..], next, prev, free, q)
      case BatchReadError => DumpResult(false, [])
      case BatchError => DumpResult(false, [])
  }

  /** get_interface_addresses: the walk starts with no previous index (-1). */
  function GetAddresses(dump: AddrDump, free: nat, q: AddrQuery): (r: DumpResult)
    ensures |r.added| <= free
    ensures dump.DumpUnavailable? ==> r == DumpResult(false, [])
  {
    match dump
    case DumpUnavailable => DumpResult(false, [])
    case Dump(batches) => Walk(batches, [], -1, free, q)
  }

  /** An endpoint carries what the query asked for: its port in the view of
      the query's family, SECURED iff secure, TCP iff tcp, and at most the
      query family's flag besides. */
  predicate Carries(e: Endpoint, q: AddrQuery) {
    (Secured in e.flags <==> q.secure) && (Tcp in e.flags <==> q.tcp)
    && e.flags - {Secured, Tcp} <= {FamilyFlag(q.family)}
    && (if q.family == FamilyInet6 then e.v6.port == q.port else e.v4.port == q.port)
  }

  /** The endpoint is built from a record that passes the scope and temporary filters. */
  predicate FromRecord(e: Endpoint, rec: AddrRecord, q: AddrQuery) {
    rec.scope < RtScopeHost && !HasTemporaryFlag(rec.attrs) && e == BuildEndpoint(rec, q)
  }

  predicate InItems(rec: AddrRecord, items: seq<DumpItem>) {
    exists k :: 0 <= k < |items| && items[k] == Address(rec)
  }

  /** The record is among the messages at hand or in a batch still to come. */
  predicate InDump(rec: AddrRecord, batches: seq<DumpBatch>, items: seq<DumpItem>) {
    InItems(rec, items) || exists b :: 0 <= b < |batches| && batches[b].Batch? && InItems(rec, batches[b].items)
  }

  /** The endpoint is built from some record of the dump that passes the filters. */
  ghost predicate Derived(e: Endpoint, batches: seq<DumpBatch>, items: seq<DumpItem>, q: AddrQuery) {
    exists rec :: InDump(rec, batches, items) && FromRecord(e, rec, q)
  }

  predicate AllCarry(s: seq<Endpoint>, q: AddrQuery) {
    forall k :: 0 <= k < |s| ==> Carries(s[k], q)
  }

  /** Neighbouring endpoints have different interface indices. */
  predicate Alternating(s: seq<Endpoint>) {
    forall k :: 0 <= k < |s| - 1 ==> s[k].interfaceIndex != s[k + 1].interfaceIndex
  }

  lemma InDumpDropItem(rec: AddrRecord, batches: seq<DumpBatch>, items: seq<DumpItem>)
    requires items != [] && InDump(rec, batches, items[1..])
    ensures InDump(rec, batches, items)
  {
    if InItems(rec, items[1..]) {
      var k :| 0 <= k < |items[1..]| && items[1..][k] == Address(rec);
      assert items[k + 1] == Address(rec);
    }
  }

  lemma InDumpNextBatch(rec: AddrRecord, batches: seq<DumpBatch>)
    requires batches != [] && batches[0].Batch? && InDump(rec, batches[1..], batches[0].items)
    ensures InDump(rec, batches, [])
  {
    if !InItems(rec, batches[0].items) {
      var b :| 0 <= b < |batches[1..]| && batches[1..][b].Batch? && InItems(rec, batches[1..][b].items);
      assert batches[b + 1] == batches[1..][b];
    }
  }

  /** Each endpoint the walk appends is built from a non-temporary,
      below-host-scope record of the dump. */
  lemma {:induction false} WalkFromRecords(batches: seq<DumpBatch>, items: seq<DumpItem>, prev: int, free: nat, q: AddrQuery)
    ensures forall e :: e in Walk(batches, items, prev, free, q).added ==> Derived(e, batches, items, q)
    decreases |batches|, |items|
  {
    if items != [] && items[0].Address? {
      var rec := items[0].record;
      if !Included(rec, prev) {
        WalkFromRecords(batches, items[1..], prev, free, q);
        forall e | e in Walk(batches, items[1..], prev, free, q).added ensures Derived(e, batches, items, q) {
          DerivedDropItem(e, batches, items, q);
        }
      } else if free > 0 {
        WalkFromRecords(batches, items[1..], ToInt32(rec.index), free - 1, q);
        var rest := Walk(batches, items[1..], ToInt32(rec.index), free - 1, q);
        forall e | e in rest.added ensures Derived(e, batches, items, q) {
          DerivedDropItem(e, batches, items, q);
        }
        assert InItems(rec, items) by { assert items[0] == Address(rec); }
        assert FromRecord(BuildEndpoint(rec, q), rec, q);
      }
    } else if items == [] && batches != [] && batches[0].Batch? {
      WalkFromRecords(batches[1..], batches[0].items, prev, free, q);
      forall e | e in Walk(batches[1..], batches[0].items, prev, free, q).added ensures Derived(e, batches, items, q) {
        DerivedNextBatch(e, batches, q);
      }
    }
  }

  lemma DerivedDropItem(e: Endpoint, batches: seq<DumpBatch>, items: seq<DumpItem>, q: AddrQuery)
    requires items != [] && Derived(e, batches, items[1..], q)
    ensures Derived(e, batches, items, q)
  {
    var rec :| InDump(rec, batches, items[1..]) && FromRecord(e, rec, q);
    InDumpDropItem(rec, batches, items);
  }

  lemma DerivedNextBatch(e: Endpoint, batches: seq<DumpBatch>, q: AddrQuery)
    requires batches != [] && batches[0].Batch? && Derived(e, batches[1..], batches[0].items, q)
    ensures Derived(e, batches, [], q)
  {
    var rec :| InDump(rec, batches[1..], batches[0].items) && FromRecord(e, rec, q);
    InDumpNextBatch(rec, batches);
  }

  lemma AlternatingCons(e: Endpoint, s: seq<Endpoint>)
    requires Alternating(s)
    requires s != [] ==> e.interfaceIndex != s[0].interfaceIndex
    ensures Alternating([e] + s)
  {
    var t := [e] + s;
    forall k | 0 <= k < |t| - 1 ensures t[k].interfaceIndex != t[k + 1].interfaceIndex {
      if k > 0 {
        assert t[k] == s[k - 1] && t[k + 1] == s[k];
      }
    }
  }

  /** Neighbouring endpoints of the walk have different interface indices,
      and the first differs from the index included before it. */
  lemma {:induction false} WalkAlternates(batches: seq<DumpBatch>, items: seq<DumpItem>, prev: int, free: nat, q: AddrQuery)
    ensures Alternating(Walk(batches, items, prev, free, q).added)
    ensures |Walk(batches, items, prev, free, q).added| > 0 ==>
      ToInt32(Walk(batches, items, prev, free, q).added[0].interfaceIndex) != prev
    decreases |batches|, |items|
  {
    if items != [] && items[0].Address? {
      var rec := items[0].record;
      if !Included(rec, prev) {
        WalkAlternates(batches, items[1..], prev, free, q);
      } else if free > 0 {
        WalkAlternates(batches, items[1..], ToInt32(rec.index), free - 1, q);
        var rest := Walk(batches, items[1..], ToInt32(rec.index), free - 1, q);
        if |rest.added| > 0 {
          ToInt32Injective(rest.added[0].interfaceIndex, rec.index);
        }
        AlternatingCons(BuildEndpoint(rec, q), rest.added);
      }
    } else if items == [] && batches != [] && batches[0].Batch? {
      WalkAlternates(batches[1..], batches[0].items, prev, free, q);
    }
  }

  /** What one get_interface_addresses call appends: each endpoint is built
      from a filtered record of the dump, carries the query's port, SECURED
      and TCP settings, and neighbouring endpoints differ in interface index. */
  lemma GetAddressesSound(dump: AddrDump, free: nat, q: AddrQuery)
    ensures dump.Dump? ==> forall e :: e in GetAddresses(dump, free, q).added ==> Derived(e, dump.batches, [], q)
    ensures AllCarry(GetAddresses(dump, free, q).added, q)
    ensures Alternating(GetAddresses(dump, free, q).added)
  {
    if dump.Dump? {
      var added := GetAddresses(dump, free, q).added;
      WalkFromRecords(dump.batches, [], -1, free, q);
      WalkAlternates(dump.batches, [], -1, free, q);
      forall k | 0 <= k < |added| ensures Carries(added[k], q) {
        assert added[k] in added;
        assert Derived(added[k], dump.batches, [], q);
        var rec :| InDump(rec, dump.batches, []) && FromRecord(added[k], rec, q);
      }
    }
  }

  /** A walk whose messages are address records followed by NLMSG_DONE, with
      room in the pool for every record, succeeds. */
  lemma {:induction false} ItemsReachDone(batches: seq<DumpBatch>, items: seq<DumpItem>, prev: int, free: nat, q: AddrQuery)
    requires |items| > 0 && items[|items| - 1] == DoneMarker
    requires forall k :: 0 <= k < |items| - 1 ==> items[k].Address?
    requires |items| - 1 <= free
    ensures Walk(batches, items, prev, free, q).ok
    decreases |items|
  {
    if |items| > 1 {
      var rec := items[0].record;
      var prev' := if Included(rec, prev) then ToInt32(rec.index) else prev;
      var free' := if Included(rec, prev) then free - 1 else free;
      ItemsReachDone(batches, items[1..], prev', free', q);
    }
  }

  /** A dump whose only batch holds address records and then NLMSG_DONE, with
      room in the pool for every record, succeeds. */
  lemma DoneBatchSucceeds(items: seq<DumpItem>, free: nat, q: AddrQuery)
    requires |items| > 0 && items[|items| - 1] == DoneMarker
    requires forall k :: 0 <= k < |items| - 1 ==> items[k].Address?
    requires |items| - 1 <= free
    ensures GetAddresses(Dump([Batch(items)]), free, q).ok
  {
    ItemsReachDone([], items, -1, free, q);
    assert [Batch(items)][1..] == [];
  }

  /** The duplicate filter looks only at the previously included index, not
      at every index seen: addresses on interfaces 2, 3, 2 give three endpoints. */
  lemma AlternatingInterfacesAllIncluded(q: AddrQuery)
    ensures |GetAddresses(Dump([Batch([Address(AddrRecord(2, 0, [])), Address(AddrRecord(3, 0, [])), Address(AddrRecord(2, 0, [])), DoneMarker])]), 8, q).added| == 3
  {
  }

  /** A temporary address is dropped without becoming the previous index: a
      temporary and then a regular address on interface 2 give one endpoint. */
  lemma TemporaryDoesNotUpdatePrevious(q: AddrQuery)
    ensures var r := GetAddresses(Dump([Batch([Address(AddrRecord(2, 0, [IfaFlags(IfaFTemporary)])), Address(AddrRecord(2, 0, [])), DoneMarker])]), 8, q);
      r.ok && |r.added| == 1 && r.added[0].interfaceIndex == 2
  {
    var tempRec := AddrRecord(2, 0, [IfaFlags(IfaFTemporary)]);
    var plainRec := AddrRecord(2, 0, []);
    var items := [Address(tempRec), Address(plainRec), DoneMarker];
    assert HasTemporaryFlag(tempRec.attrs) by {
      assert tempRec.attrs[..0] == [];
    }
    assert !Included(tempRec, -1);
    assert Included(plainRec, -1);
    assert [Batch(items)][1..] == [];
    assert items[1..] == [Address(plainRec), DoneMarker];
    assert items[1..][1..] == [DoneMarker];
    var last := Walk([], [DoneMarker], ToInt32(2), 7, q);
    assert last == DumpResult(true, []);
    var second := Walk([], items[1..], -1, 8, q);
    assert second == DumpResult(true, [BuildEndpoint(plainRec, q)]);
    assert Walk([], items, -1, 8, q) == second;
    assert GetAddresses(Dump([Batch(items)]), 8, q) == Walk([], items, -1, 8, q);
  }

  /** The pool limit stops the walk with false but keeps what was appended. */
  lemma PoolExhaustionKeepsAppended(q: AddrQuery)
    ensures var r := GetAddresses(Dump([Batch([Address(AddrRecord(2, 0, [])), Address(AddrRecord(3, 0, [])), DoneMarker])]), 1, q);
      !r.ok && |r.added| == 1 && r.added[0].interfaceIndex == 2
  {
  }
  /** A run of address messages, one per record. */
  function AddressItems(recs: seq<AddrRecord>): (r: seq<DumpItem>)
    ensures |r| == |recs|
    ensures forall k :: 0 <= k < |recs| ==> r[k] == Address(recs[k])
  {
    if recs == [] then [] else [Address(recs[0])] + AddressItems(recs[1..])
  }

  /** The endpoint a record becomes under query `q`. */
  function BuildFor(q: AddrQuery): AddrRecord -> Endpoint {
    r => BuildEndpoint(r, q)
  }

  /** The duplicate and temporary filters on their own, without the pool:
      the records of a run that are kept when the interface index last kept
      is `prev`.  A record is kept iff it is below host scope, not
      temporary and on another index than the record kept before it. */
  function Kept(recs: seq<AddrRecord>, prev: int): (r: seq<AddrRecord>)
    ensures |r| <= |recs|
    ensures forall k :: 0 <= k < |r| ==> r[k].scope < RtScopeHost && !HasTemporaryFlag(r[k].attrs)
    ensures |r| > 0 ==> ToInt32(r[0].index) != prev
    ensures forall k :: 0 <= k < |r| - 1 ==> r[k].index != r[k + 1].index
  {
    if recs == [] then []
    else if Included(recs[0], prev) then
      var rest := Kept(recs[1..], ToInt32(recs[0].index));
      if rest == [] then [recs[0]]
      else
        ToInt32Injective(rest[0].index, recs[0].index);
        [recs[0]] + rest
    else Kept(recs[1..], prev)
  }

  /** A batch of address messages ended by NLMSG_DONE, with a pool entry
      for every kept record: the walk succeeds with exactly the endpoints of
      the kept records, in order. */
  lemma {:induction false} WalkKept(batches: seq<DumpBatch>, recs: seq<AddrRecord>, prev: int, free: nat, q: AddrQuery)
    requires |Kept(recs, prev)| <= free
    ensures Walk(batches, AddressItems(recs) + [DoneMarker], prev, free, q) == DumpResult(true, MapAll(BuildFor(q), Kept(recs, prev)))
    decreases |recs|
  {
    var items := AddressItems(recs) + [DoneMarker];
    if recs == [] {
      assert items == [DoneMarker];
    } else {
      var rec := recs[0];
      assert items[0] == Address(rec);
      assert items[1..] == AddressItems(recs[1..]) + [DoneMarker];
      if !Included(rec, prev) {
        WalkKept(batches, recs[1..], prev, free, q);
      } else {
        WalkKept(batches, recs[1..], ToInt32(rec.index), free - 1, q);
        MapAllCons(BuildFor(q), rec, Kept(recs[1..], ToInt32(rec.index)));
      }
    }
  }

  /** The same batch with fewer pool entries than kept records: the walk
      fails after appending the endpoints of the first `free` kept records. */
  lemma {:induction false} WalkKeptExhausted(batches: seq<DumpBatch>, recs: seq<AddrRecord>, prev: int, free: nat, q: AddrQuery)
    requires |Kept(recs, prev)| > free
    ensures Walk(batches, AddressItems(recs) + [DoneMarker], prev, free, q) == DumpResult(false, MapAll(BuildFor(q), Kept(recs, prev))[..free])
    decreases |recs|
  {
    var items := AddressItems(recs) + [DoneMarker];
    var rec := recs[0];
    assert items[0] == Address(rec);
    assert items[1..] == AddressItems(recs[1..]) + [DoneMarker];
    if !Included(rec, prev) {
      WalkKeptExhausted(batches, recs[1..], prev, free, q);
    } else if free > 0 {
      var rest := Kept(recs[1..], ToInt32(rec.index));
      WalkKeptExhausted(batches, recs[1..], ToInt32(rec.index), free - 1, q);
      MapAllCons(BuildFor(q), rec, rest);
      PrefixCons(BuildEndpoint(rec, q), MapAll(BuildFor(q), rest), free);
    }
  }
}
