# iotivity-lite: the Linux IP adapter and the core-resource table, modelled in Dafny

This project models two parts of iotivity-lite (an implementation of the OCF
resource model for constrained devices) and proves properties of them.

1. The Linux IP adapter, `port/linux/ipadapter.c`. The model covers its
   bookkeeping:
   - the list of known network interfaces, and the UP/DOWN events fired from
     netlink address messages;
   - the interface-change handler: its multicast re-joins and the per-context
     "refresh endpoint list" flag;
   - how the endpoint directory is built from a netlink address dump:
     filtering, copying fields in, and taking entries from a bounded pool;
   - the metadata `recv_msg` records (sender, receiving interface, local
     address);
   - the fixed socket priority of `oc_udp_receive_message`, and the event
     dispatch order of `process_event`;
   - the partial-send loop of `send_msg`, the choice of send socket, and the
     endpoint-to-socket-address conversion;
   - the registry of interface-event callbacks;
   - the multicast group joins of `configure_mcast_socket`;
   - `oc_set_fd_flags` and `to_timeval`.
2. The core-resource table, `api/oc_core_res.c`. The model covers:
   - the flat array `g_core_resources`: platform-wide resources first, then
     one block of per-device resources for each logical device;
   - the lookups by type and by URI, and URI matching up to one leading `/`;
   - the DCR, SVR and vertical classifiers;
   - `oc_store_uri` and the encoding of an interface mask as a list of names;
   - the device counter, shutdown and platform initialisation;
   - binding an extra resource type to a device;
   - the POST validation of `/oc/con` and the `rt` query filter.

Operating-system calls are parameters of the model:
- netlink replies, `recvmsg` and `getifaddrs` results are already-decoded
  records;
- `sendmsg` is an oracle function from the bytes sent so far to its answer;
- `setsockopt` success is a predicate on the membership requested;
- `fcntl` answers are arguments.

Each compare-and-swap loop on a flag word is modelled as one atomic update.

Build configuration assumed throughout:
- on: OC_IPV4, OC_SECURITY, OC_PKI, OC_TCP, OC_NETWORK_MONITOR;
- static allocation (no OC_DYNAMIC_ALLOCATION);
- OC_WKCORE is a boolean parameter of the multicast model;
- the optional core resources (well-known core, maintenance, cloud, software
  update, push, time) are off.

Module layout, matching the structure of the source:

| file | module | models |
|---|---|---|
| common.dfy | Common | byte and integer types, C `int` casts, memcpy into a zeroed field |
| endpoint.dfy | Endpoints | `oc_endpoint_t`, `oc_message_t` |
| fd_util.dfy | FdUtil | `oc_set_fd_flags`, `to_timeval` |
| network_monitor.dfy | NetworkMonitor | `g_ip_interface_list`, the interface-event callback list |
| address_synthesis.dfy | AddressSynthesis | the record fold of `get_interface_addresses`, as functions |
| ip_context.dfy | IpContexts | `ip_context_t`: endpoint list, pool, refresh flag, the context list |
| multicast.dfy | Multicast | group joins of `configure_mcast_socket` |
| interface_change.dfy | InterfaceChange | `process_interface_change_event` |
| receive.dfy | Receive | `recv_msg`, `oc_udp_receive_message`, `process_socket_read_event`, `process_event` |
| transmit.dfy | Transmit | `send_msg`, `oc_get_socket_address`, `oc_send_buffer_internal` |
| core_uri.dfy | CoreUri | resource types, URI matching, `oc_store_uri`, type by URI |
| core_index.dfy | CoreIndex | slot arithmetic of the flat table, classifiers as predicates |
| core_interfaces.dfy | CoreInterfaces | `oc_core_encode_interfaces_mask` |
| core_table.dfy | CoreTable | the table, device info and platform info, as one class |
| core_requests.dfy | CoreRequests | `/oc/con` POST handling, `oc_filter_resource_by_rt` |

Two behaviours of the endpoint refresh matter to callers, and the model
states both.
- **Duplicate filter.** Each address record is compared only with the
  interface index included just before it (`port/linux/ipadapter.c:496`,
  `:527`, `:555`). So addresses on interfaces 2, 3, 2 give three endpoints.
  `AddressSynthesis.WalkKept` states the rule for every input, and
  `AddressSynthesis.AlternatingInterfacesAllIncluded` shows the example.
- **Pool exhaustion.** When the pool runs out, `get_interface_addresses`
  returns false and keeps what it has already appended.
  `refresh_endpoints_list` has already freed the old list, and the later
  queries still run. `AddressSynthesis.WalkKeptExhausted`,
  `AddressSynthesis.PoolExhaustionKeepsAppended` and
  `IpContexts.IpContext.RefreshEndpointsList` state this.

## Model

| member | source | states |
|---|---|---|
| Common.ToInt32 | port/linux/ipadapter.c:527 | the `(int)` cast of an unsigned interface index: unchanged below 2^31, negative from 2^31 on |
| Common.ToUint8 | port/linux/ipadapter.c:557 | the store of an unsigned value into a uint8_t: unchanged below 256, otherwise congruent to it modulo 256 |
| Common.ToInt32Injective | port/linux/ipadapter.c:527 | two indices compare equal after the cast iff they are equal |
| Common.FitKeepsData | port/linux/ipadapter.c:538-543 | a memcpy of n bytes into a zeroed field keeps each copied byte |
| FdUtil.SetFdFlags | port/linux/ipadapter.c:1966-1987 | -1 iff F_GETFL answered negative, or F_SETFL was needed and failed; on success the flags are (old & ~remove) \| add; F_SETFL is issued iff that value differs from the old flags |
| FdUtil.SetFdFlagsBits | port/linux/ipadapter.c:1974-1976 | the returned flags carry every added bit, no removed bit that is not also added, and every other bit as before |
| FdUtil.SetFdFlagsIdempotent | port/linux/ipadapter.c:1978-1980 | applying the same update to its own result returns it unchanged, with no F_SETFL call |
| FdUtil.ToTimeval | port/linux/ipadapter.c:1138-1152 | the timeout is never zero; microseconds stay below 10^6; seconds are ticks / second truncated to 32 bits |
| FdUtil.ToTimevalExact | port/linux/ipadapter.c:1141-1146 | when a second is a whole number of microsecond steps and nothing wraps, the timeout is exactly the tick count in microseconds |
| NetworkMonitor.RemoveFirst | port/linux/ipadapter.c:175 | an absent value leaves the list as it was; a present one shortens it by one |
| NetworkMonitor.RemoveFirstContents | port/linux/ipadapter.c:167-179 | removal takes away exactly one occurrence of the index and no other value |
| NetworkMonitor.RemoveFirstNoDuplicates | port/linux/ipadapter.c:167-179 | on a duplicate-free list, the removed index is entirely gone and the list stays duplicate-free |
| NetworkMonitor.UpIndices | port/linux/ipadapter.c:152-161 | exactly the indices of up, non-loopback entries are added |
| NetworkMonitor.AddInterface | port/linux/ipadapter.c:127-142 | add_ip_interface on the list value: the old list is kept as a prefix, at most one index is appended, and the index is present afterwards iff it was before or the pool had room |
| NetworkMonitor.AddAllProperties | port/linux/ipadapter.c:144-165 | repeated adds keep the list bounded by the pool and duplicate-free, keep the old prefix, and hold every added index unless the pool filled up |
| NetworkMonitor.InterfaceList.Find | port/linux/ipadapter.c:117-125 | found iff the index is in the list, at its first position |
| NetworkMonitor.InterfaceList.Add | port/linux/ipadapter.c:127-142 | true iff the index was absent and the pool had room; then appended at the tail; otherwise the list is unchanged |
| NetworkMonitor.InterfaceList.Remove | port/linux/ipadapter.c:167-179 | true iff the index was present; afterwards it is absent; only its occurrence is removed |
| NetworkMonitor.InterfaceList.RemoveAll | port/linux/ipadapter.c:181-191 | the list ends empty and the pool entries are returned |
| NetworkMonitor.InterfaceList.CheckNewIpInterfaces | port/linux/ipadapter.c:144-165 | false, list unchanged, when getifaddrs fails; otherwise every up non-loopback index is added in order |
| NetworkMonitor.CallbackList.Add | port/linux/ipadapter.c:1511-1527 | -1 for a null handler or a full pool; otherwise appended, and 0 |
| NetworkMonitor.CallbackList.Remove | port/linux/ipadapter.c:1529-1547 | -1 for a null or unregistered handler; otherwise its first registration is removed, and 0 |
| NetworkMonitor.CallbackList.RemoveAll | port/linux/ipadapter.c:193-205 | the callback list ends empty and the pool entries are returned |
| NetworkMonitor.CallbackList.Dispatch | port/linux/ipadapter.c:1549-1560 | each registered handler is called once with the event, head to tail |
| IpContexts.ClearRefresh | port/linux/ipadapter.c:673-675 | the refresh bit ends clear and every other flag bit is kept |
| IpContexts.ClearRefreshUnset | port/linux/ipadapter.c:673 | with the bit already clear, the flag byte is unchanged (the loop does not run) |
| IpContexts.SetRefresh | port/linux/ipadapter.c:780-782 | the refresh bit ends set and every other flag bit is kept |
| IpContexts.SetRefreshSet | port/linux/ipadapter.c:780 | with the bit already set, the flag byte is unchanged |
| IpContexts.ScanAttributes | port/linux/ipadapter.c:532-552 | the attribute loop yields the last IFA_ADDRESS payload, and whether some IFA_FLAGS word has IFA_F_TEMPORARY |
| IpContexts.WalkRecord | port/linux/ipadapter.c:526-576 | a record is included iff not temporary, giving the endpoint BuildEndpoint describes |
| IpContexts.IpContext.RefreshQueries | port/linux/ipadapter.c:605-659 | refresh issues exactly eight queries |
| IpContexts.IpContext.RefreshQueriesOrder | port/linux/ipadapter.c:610-655 | plain and secure alternate; IPv6 twice then IPv4 twice; UDP first, the last four over TCP |
| IpContexts.IpContext.Refreshed | port/linux/ipadapter.c:605-659 | the rebuilt list never exceeds the free pool entries |
| IpContexts.IpContext.GetInterfaceAddresses | port/linux/ipadapter.c:454-592 | the list gains exactly the endpoints GetAddresses synthesizes from the dump, each taken from the pool; the result is its success flag; the flag byte is untouched |
| IpContexts.IpContext.ReadDump | port/linux/ipadapter.c:496-589 | the batch loop, started with no previous index (-1), appends exactly what Walk computes and returns its success |
| IpContexts.IpContext.ReadBatch | port/linux/ipadapter.c:517-588 | the message loop over one batch appends what Walk appends for it, and either finishes the walk or hands the rest to the next batch |
| IpContexts.IpContext.ReadAddress | port/linux/ipadapter.c:522-584 | a record at host scope or beyond, or on the previous index, is skipped; otherwise its endpoint is appended and it becomes the previous index; a full pool appends nothing |
| IpContexts.IpContext.AddEndpoint | port/linux/ipadapter.c:577-583 | taken iff the pool had an entry; then appended; otherwise nothing changes |
| IpContexts.IpContext.FreeEndpointsList | port/linux/ipadapter.c:594-603 | the list ends empty and every entry goes back to the pool |
| IpContexts.IpContext.RefreshEndpointsList | port/linux/ipadapter.c:605-659 | the old list is emptied first; the new list is the eight queries' endpoints in order; a failed query does not stop the later ones |
| IpContexts.IpContext.RefreshUdp | port/linux/ipadapter.c:610-631 | the first four queries, in order, on an emptied list |
| IpContexts.IpContext.RefreshTcp | port/linux/ipadapter.c:633-658 | the last four queries, continuing the list of the first four |
| IpContexts.IpContext.RunQuery | port/linux/ipadapter.c:610-613 | one query extends the list by that query's endpoints whatever its status |
| IpContexts.IpContext.GetEndpoints | port/linux/ipadapter.c:670-686 | clears exactly the refresh bit; rebuilds the list iff the bit was set or the list was empty; otherwise the cached list and pool are untouched |
| IpContexts.IpContext.RequestRefresh | port/linux/ipadapter.c:778-786 | the refresh bit ends set and no other flag bit changes |
| IpContexts.IpContext.TakeRefresh | port/linux/ipadapter.c:670-680 | reports whether the refresh bit was set, and clears only that bit |
| IpContexts.FindContext | port/linux/ipadapter.c:243-253 | none iff no context has the device number; otherwise a listed context with that number |
| IpContexts.GetIpContextForDevice | port/linux/ipadapter.c:243-253 | the list walk returns the first context whose device number matches |
| IpContexts.ConnectivityGetEndpoints | port/linux/ipadapter.c:661-687 | none when no context serves the device; otherwise that context's list after GetEndpoints (possibly empty, which the C function returns as NULL too); no other context changes |
| IpContexts.WalkStep | port/linux/ipadapter.c:517-587 | how the record walk unfolds at one message: NLMSG_DONE, a skipped record, a full pool, an appended endpoint |
| IpContexts.RefreshPrefix | port/linux/ipadapter.c:605-659 | the first n queries never take more than the free pool entries |
| AddressSynthesis.LastAddressIsLast | port/linux/ipadapter.c:534-545 | the address kept is the payload of the last IFA_ADDRESS attribute, and none when there is none |
| AddressSynthesis.TemporaryFlagSomewhere | port/linux/ipadapter.c:546-549 | a record is temporary iff some IFA_FLAGS attribute has IFA_F_TEMPORARY |
| AddressSynthesis.BuildEndpoint | port/linux/ipadapter.c:522-576 | the endpoint built from an included record holds the interface index, the family's address and flag, the IPv6 scope id (the interface index truncated to 8 bits) only for link scope, the query's port, SECURED iff secure, TCP iff tcp, device 0 and zero local addresses |
| AddressSynthesis.Walk | port/linux/ipadapter.c:496-589 | the walk of the two nested loops never appends more than the free pool entries |
| AddressSynthesis.GetAddresses | port/linux/ipadapter.c:454-592 | a failed socket, send or select gives false and nothing; never more endpoints than the pool holds |
| AddressSynthesis.WalkFromRecords | port/linux/ipadapter.c:517-584 | every appended endpoint is built from a record of the dump with scope below host that is not temporary |
| AddressSynthesis.WalkAlternates | port/linux/ipadapter.c:526-555 | neighbouring endpoints differ in interface index, and the first differs from the index included before the walk |
| AddressSynthesis.GetAddressesSound | port/linux/ipadapter.c:454-592 | each endpoint comes from a filtered record of the dump, carries the query's port, SECURED and TCP settings, and differs in index from its neighbour |
| AddressSynthesis.ItemsReachDone | port/linux/ipadapter.c:517-521 | address records followed by NLMSG_DONE, with pool room for each, end the walk with success |
| AddressSynthesis.DoneBatchSucceeds | port/linux/ipadapter.c:498-591 | a one-batch dump of address records then NLMSG_DONE, with pool room, succeeds |
| AddressSynthesis.Kept | port/linux/ipadapter.c:526-555 | the duplicate and temporary filters alone: kept records are below host scope and not temporary, the first is on another index than the previous one, and neighbours differ in index |
| AddressSynthesis.WalkKept | port/linux/ipadapter.c:496-589 | a batch of address records ended by NLMSG_DONE, with a pool entry per kept record: true, with exactly the endpoints of the kept records in order |
| AddressSynthesis.WalkKeptExhausted | port/linux/ipadapter.c:577-581 | with fewer pool entries than kept records: false, with the endpoints of the first `free` kept records |
| AddressSynthesis.AlternatingInterfacesAllIncluded | port/linux/ipadapter.c:527 | addresses on interfaces 2, 3, 2 give three endpoints: only the previously included index is compared |
| AddressSynthesis.TemporaryDoesNotUpdatePrevious | port/linux/ipadapter.c:546-555 | a temporary then a regular address on interface 2 give one endpoint: the temporary one does not become the previous index |
| AddressSynthesis.PoolExhaustionKeepsAppended | port/linux/ipadapter.c:577-581 | with room for one endpoint, two records give false and keep the first endpoint |
| InterfaceChange.MonitorStep | port/linux/ipadapter.c:717-768 | RTM_NEWADDR adds the index, firing UP iff it was new and the pool had room; RTM_DELADDR removes it, firing DOWN iff it was known; other messages change nothing |
| InterfaceChange.MonitorFold | port/linux/ipadapter.c:717-770 | the list and events after a batch of netlink messages: at most one event per message; its balance is MonitorFoldBalance |
| InterfaceChange.MonitorFoldBalance | port/linux/ipadapter.c:717-770 | over a batch the list stays bounded and duplicate-free, and its length changes by the UP count minus the DOWN count |
| InterfaceChange.JoinDevice | port/linux/ipadapter.c:732-751 | the join status for one device is 0 or -1 |
| InterfaceChange.JoinDevices | port/linux/ipadapter.c:732-739 | the summed status of the device loop lies between -(devices left) and 0 |
| InterfaceChange.AttrJoins | port/linux/ipadapter.c:728-755 | only an IFA_ADDRESS of an AF_INET message, or of an AF_INET6 message of link scope, triggers joins |
| InterfaceChange.JoinAttrs | port/linux/ipadapter.c:726-755 | the summed status of the attribute loop is never positive |
| InterfaceChange.MessageJoins | port/linux/ipadapter.c:718-757 | only RTM_NEWADDR messages trigger joins |
| InterfaceChange.JoinMessages | port/linux/ipadapter.c:714-770 | the batch status, a sum of join statuses, is never positive |
| InterfaceChange.NoNewAddrNoJoins | port/linux/ipadapter.c:717-770 | a batch without RTM_NEWADDR joins nothing and reports 0 |
| InterfaceChange.AllJoinableNoError | port/linux/ipadapter.c:714-790 | when the kernel accepts every join, the batch reports 0 |
| InterfaceChange.ProcessInterfaceChangeEvent | port/linux/ipadapter.c:693-791 | -1 and nothing changed on a read failure or NLMSG_ERROR; otherwise the monitor fold fires the events, the joins are summed into the result, and iff some address was added or removed every context of a device in range ends with the refresh bit set and its other bits kept |
| InterfaceChange.HandleMessages | port/linux/ipadapter.c:717-770 | the message loop computes MonitorFold for the list and events, JoinMessages for memberships and status, and whether an address changed |
| InterfaceChange.HandleMessage | port/linux/ipadapter.c:718-768 | one message's list update and events are MonitorStep's, its joins MessageJoins' |
| InterfaceChange.JoinAttrsLoop | port/linux/ipadapter.c:726-755 | the attribute loop computes JoinAttrs |
| InterfaceChange.JoinDevicesLoop | port/linux/ipadapter.c:732-751 | the device loop computes JoinDevices from device 0 |
| InterfaceChange.JoinOnDeviceAt | port/linux/ipadapter.c:732-751 | one turn of the device loop: device i's context, if any, joins; without one nothing is joined and the status is 0 |
| InterfaceChange.JoinOnDevice | port/linux/ipadapter.c:733-750 | the join on one context's multicast socket is JoinDevice for it |
| InterfaceChange.MarkRefresh | port/linux/ipadapter.c:772-787 | every context of a device below the count gets the refresh bit set, other bits kept; other contexts and all lists are untouched |
| Multicast.Ipv6Groups | port/linux/ipadapter.c:280-374 | the All OCF Nodes groups ff02, ff03 and ff05::158 in that order, followed by the All CoAP Nodes groups ff0X::fd when well-known core is on |
| Multicast.Rejoin | port/linux/ipadapter.c:290-297 | drop then add: the group is a member afterwards iff the kernel accepted the add; other memberships are unchanged |
| Multicast.Attempted | port/linux/ipadapter.c:280-374 | joins are attempted in order up to and including the first refused one |
| Multicast.JoinGroups | port/linux/ipadapter.c:280-374 | 0 iff every group is accepted, else -1; the attempted groups become members iff accepted, the others stay as they were |
| Multicast.JoinGroupsMembers | port/linux/ipadapter.c:280-374 | a 0 result means every group is joined on the socket and interface; memberships of other sockets, interfaces or local addresses are untouched |
| Multicast.JoinIpv6 | port/linux/ipadapter.c:280-374 | add_mcast_sock_to_ipv6_mcast_group: 0 or -1, 0 iff the kernel accepts every All OCF Nodes (and, with well-known core, All CoAP Nodes) group on the interface; then all of them are joined; memberships of other sockets or interfaces are untouched |
| Multicast.JoinIpv4 | port/linux/ipadapter.c:256-277 | add_mcast_sock_to_ipv4_mcast_group: 0 iff the kernel accepts 224.0.1.187 on the interface and local address, else -1; that membership exists afterwards iff accepted; no other membership changes |
| Multicast.JoinIpv6AllOrFirstFailure | port/linux/ipadapter.c:293-297 | when group k is the first refused, the result is -1 and no later group is touched |
| Multicast.AttemptedLength | port/linux/ipadapter.c:280-374 | when group k is the first refused, exactly k + 1 joins are attempted |
| Multicast.EntryStep | port/linux/ipadapter.c:386-411 | one entry's status is 0 or -1, 0 iff all its attempted joins were accepted |
| Multicast.ConfigureFold | port/linux/ipadapter.c:385-413 | the summed status lies between -(entries) and 0, and is 0 iff every attempted join was accepted |
| Multicast.AttemptedAllJoinable | port/linux/ipadapter.c:280-374 | every attempted join succeeded iff every group was joinable |
| Multicast.ConfigureMcastSocket | port/linux/ipadapter.c:376-416 | -1, nothing joined, when getifaddrs fails; otherwise the loop computes ConfigureFold |
| Multicast.JoinEntry | port/linux/ipadapter.c:386-411 | the loop body for one entry computes EntryStep |
| Multicast.OnlyEligibleJoined | port/linux/ipadapter.c:385-412 | every attempted membership is on the given socket and on the index of an up, non-loopback entry of the right family (link-local for IPv6) |
| Multicast.AllJoinsSucceed | port/linux/ipadapter.c:376-416 | when every join is accepted, the result is 0 and every eligible entry is joined to every group of its family |
| Multicast.EligibleAttempted | port/linux/ipadapter.c:385-413 | an eligible entry's joins are among those of the whole loop |
| Receive.ControlWalkNoPktInfo | port/linux/ipadapter.c:826-877 | without a packet-info control message the endpoint is left as it was |
| Receive.ControlWalkFirstPktInfo | port/linux/ipadapter.c:827-875 | the first packet-info message decides: a sender address of the wrong length fails; otherwise sender, port, scope (truncated to 8 bits) and receiving interface are set; the local address is the packet's destination on a unicast socket and zero on a multicast one |
| Receive.Receive | port/linux/ipadapter.c:816-881 | none on a recvmsg failure, MSG_TRUNC, MSG_CTRUNC or a bad sender length; otherwise the byte count is the datagram length, within the buffer |
| Receive.Written | port/linux/ipadapter.c:802-803 | the kernel fills the buffer's prefix with the datagram and leaves the rest |
| Receive.RecvMsg | port/linux/ipadapter.c:793-881 | -1 with the endpoint untouched on failure; otherwise the byte count, the buffer holding the datagram, and the endpoint after the control-message walk |
| Receive.UdpSockets | port/linux/ipadapter.c:912-998 | the six UDP sockets tested |
| Receive.UdpFlagsBySocket | port/linux/ipadapter.c:923-995 | each socket's message is IPV4 or IPV6 and not both; MULTICAST exactly for the multicast sockets; SECURED exactly for the secure ones; nothing else |
| Receive.FirstReady | port/linux/ipadapter.c:912-1001 | the first ready socket of the priority order, none iff none is ready |
| Receive.UdpReceiveMessage | port/linux/ipadapter.c:912-1001 | only the first ready socket (server, mcast, server4, mcast4, secure, secure4) is cleared and read; a success sets the length, the endpoint with that socket's flags, and `encrypted` only for secure sockets; with none ready, NONE and nothing changes |
| Receive.ReceiveOn | port/linux/ipadapter.c:915-926 | one branch: the socket leaves the ready set; ERROR on a failed read, else RECEIVE with the message filled |
| Receive.ProcessSocketReadEvent | port/linux/ipadapter.c:1025-1058 | -1, nothing delivered and the ready set unchanged when no message can be allocated; otherwise the UDP receive, falling back to TCP only when no UDP socket was ready; after a UDP receive exactly the first ready UDP socket leaves the ready set, after the TCP fallback exactly the descriptors the TCP receive takes (`tcpTaken`); a message is delivered iff one was received; it is fresh, for the context's device, and after a UDP receive holds the datagram at the front of its buffer, its length, the endpoint recv_msg built with that socket's flags, and `encrypted` exactly for a secure socket; 0 iff neither receive reported anything |
| Receive.ProcessEvent | port/linux/ipadapter.c:1071-1119 | the interface-change socket (device 0 only) first, then the TCP connect pipe, each taken out of the ready set; then the read event, with its result, its ready set (unchanged without an allocation, less the first ready UDP socket or less `tcpTaken` otherwise) and the contents of its delivered message as for ProcessSocketReadEvent; then the write handler |
| Receive.ControlWalk | port/linux/ipadapter.c:826-877 | the control-message walk never changes the endpoint's device or flags; what the first packet-info message sets is in ControlWalkFirstPktInfo |
| Receive.AfterUdpReceive | port/linux/ipadapter.c:912-1001 | the ready set after the UDP receive: unchanged iff no UDP socket was ready, otherwise exactly one socket fewer |
| Transmit.GetSocketAddress | port/linux/ipadapter.c:1297-1321 | false for a null endpoint or storage; an IPv4 socket address iff the endpoint is IPV4, else IPv6 with scope |
| Transmit.ReplyGoesToSender | port/linux/ipadapter.c:1297-1321 | a reply to a received endpoint is addressed to the sender recv_msg recorded, with its scope id truncated to 8 bits |
| Transmit.FirstPktInfo | port/linux/ipadapter.c:827-877 | the position of the first packet-info control message, none iff there is none |
| Transmit.SendControl | port/linux/ipadapter.c:1226-1275 | IPV6_PKTINFO with the interface and local IPv6 address for IPV6 endpoints, IP_PKTINFO with the local IPv4 address for IPV4 ones, none otherwise |
| Transmit.ReplyFromDestination | port/linux/ipadapter.c:1243-1267 | a reply to a unicast request leaves from the arrival interface with the packet's destination as source; for multicast the source is zero |
| Transmit.SentTotal | port/linux/ipadapter.c:1277-1287 | the accumulated total never exceeds the length |
| Transmit.SentTotalStops | port/linux/ipadapter.c:1278-1287 | the loop stops only with every byte sent or at a failed call |
| Transmit.SendResult | port/linux/ipadapter.c:1290-1294 | -1 or a total in 1..length; -1 for a zero-length message or a failing first call |
| Transmit.SendResultWhole | port/linux/ipadapter.c:1277-1294 | when no call fails, the whole message is sent |
| Transmit.SendMsg | port/linux/ipadapter.c:1211-1295 | the control message is SendControl's and the loop result SendResult's |
| Transmit.ReplySocket | port/linux/ipadapter.c:1354-1378 | a reply leaves from the unicast socket of the request's family and security: multicast requests are answered from the server sockets |
| Transmit.SendSocket | port/linux/ipadapter.c:1354-1378 | the socket a message leaves from: a secure one iff SECURED, an IPv4 one iff IPV4 |
| Transmit.SendBufferInternal | port/linux/ipadapter.c:1323-1381 | -1 when no context serves the device; a TCP endpoint goes to the TCP layer; otherwise send_msg on the socket SendSocket picks |
| CoreUri.StripSlash | api/oc_core_res.c:763-778 | one leading '/' removed when present, else the URI unchanged |
| CoreUri.StoreUri | api/oc_core_res.c:573-585 | the stored URI starts with '/'; it is the input when that had one, else '/' prepended |
| CoreUri.StoreUriIdempotent | api/oc_core_res.c:573-585 | storing twice equals storing once |
| CoreUri.StoreUriStrip | api/oc_core_res.c:573-585 | a stored URI is '/' followed by the URI without its leading '/' |
| CoreUri.UriMatchesStored | api/oc_core_res.c:763-778 | two URIs match iff they are stored as the same string |
| CoreUri.CoreKey | api/oc_core_res.c:780-880 | each core URI, without its '/', is non-empty and does not start with '/' |
| CoreUri.CoreUriOf | api/oc_core_res.c:780-880 | each core URI starts with '/' and strips to its key |
| CoreUri.TypeOfKey | api/oc_core_res.c:780-880 | a found type's key is the one given; OCF_CON only while announced |
| CoreUri.TypeByUri | api/oc_core_res.c:780-880 | -1 or a type whose URI matches the argument; OCF_CON only while announced |
| CoreUri.TypeByUriStored | api/unittest/coreresourcetest.cpp:337-347 | a URI has the same type with or without its leading '/' |
| CoreUri.TypeByUriEmpty | api/unittest/coreresourcetest.cpp:279-283 | "" and "/" name no core resource |
| CoreUri.TypeByUriRoundTrip | api/unittest/coreresourcetest.cpp:285-307 | every core URI, with or without '/', gives back its type; "/oc/con" only while announced, -1 otherwise |
| CoreIndex.SlotOf | api/oc_core_res.c:587-606 | a per-device slot maps back to its type and device |
| CoreIndex.SlotInBlock | api/oc_core_res.c:587-606 | a device's slots are exactly the block from its OCF_CON slot to its OCF_D slot |
| CoreIndex.MemoryIndex | api/oc_core_res.c:587-606 | a slot exists iff 0 <= type <= OCF_D and (platform type or device < count); it is below the table size and holds that type (and device); platform slots precede device slots |
| CoreIndex.MemoryIndexInjective | api/oc_core_res.c:587-606 | distinct (type, device) pairs never share a slot; platform types share theirs across devices |
| CoreIndex.MemoryIndexPlatform | api/oc_core_res.c:594-596 | a platform type's slot is its type, whatever the device and count |
| CoreIndex.MemoryIndexOnto | api/oc_core_res.c:68-70 | every slot of the table is the slot of its own type and device |
| CoreIndex.ClassifyDeviceType | api/unittest/coreresourcetest.cpp:350-439 | for a valid device's core resources: SVR iff doxm..roles, never vertical, DCR unless introspection or /oc/con |
| CoreIndex.ClassifyPlatformType | api/oc_core_res.c:700-761 | the platform resource is a vertical DCR and no SVR, for any device |
| CoreIndex.ClassifyInvalid | api/oc_core_res.c:678-761 | null or an invalid device: no SVR; outside the platform slot not vertical and no DCR |
| CoreIndex.ClassifyApp | api/unittest/coreresourcetest.cpp:373-378 | an application resource is vertical, and no DCR or SVR, for a valid device |
| CoreInterfaces.Present | api/oc_core_res.c:157-196 | one presence flag per known interface |
| CoreInterfaces.PresentAt | api/oc_core_res.c:157-196 | an interface is present iff its bit is set |
| CoreInterfaces.IfNamesDistinct | api/oc_core_res.c:157-196 | the eleven interface names are distinct |
| CoreInterfaces.ListedMember | api/oc_core_res.c:157-196 | a name is listed iff it is in the table at a marked position |
| CoreInterfaces.ListedSubsequence | api/oc_core_res.c:157-196 | the listed names keep the table's order |
| CoreInterfaces.ListedDistinct | api/oc_core_res.c:157-196 | names listed from a distinct table are distinct |
| CoreInterfaces.EncodeInterfaces | api/oc_core_res.c:157-196 | oc_core_encode_interfaces_mask: at most the eleven interface names; which and in what order is in EncodeMember and EncodeOrdered |
| CoreInterfaces.EncodeMember | api/oc_core_res.c:157-196 | an interface's name is emitted iff its bit is set in the mask |
| CoreInterfaces.EncodeOnlyNames | api/oc_core_res.c:157-196 | only interface names are emitted |
| CoreInterfaces.EncodeOrdered | api/oc_core_res.c:157-196 | names come in the order R, RW, A, S, LL, CREATE, B, BASELINE, W, STARTUP, STARTUP_REVERT, each at most once |
| CoreInterfaces.BitOf | api/oc_core_res.c:157-196 | each interface is a single known bit |
| CoreInterfaces.EncodeNone | api/unittest/coreresourcetest.cpp:144-146 | a mask with no known bit (0 in particular) emits nothing |
| CoreInterfaces.BitsDisjoint | api/oc_core_res.c:157-196 | no two interfaces share a bit |
| CoreInterfaces.EncodeSingle | api/unittest/coreresourcetest.cpp:177-181 | a single-interface mask emits exactly that interface's name |
| CoreRequests.FirstKey | api/oc_core_res.c:276-298 | the first entry with the key, none before it |
| CoreRequests.ConPostNoKeys | api/oc_core_res.c:276-330 | without "n" or "locn" entries nothing changes, and the answer is BAD_REQUEST unless something changed before |
| CoreRequests.ConPostName | api/oc_core_res.c:277-297 | the name is unchanged or becomes the non-empty value of the first "n" entry, with CHANGED |
| CoreRequests.ConPost | api/oc_core_res.c:276-330 | the walk of the POST payload: a BAD_REQUEST answer never renames the device, and a device without a location tag stays untagged |
| CoreRequests.ConPostRenames | api/oc_core_res.c:277-297 | an acceptable first "n" entry, reached past accepted "locn" entries only, renames the device to its value with CHANGED |
| CoreRequests.ConPostRejects | api/oc_core_res.c:277-308 | when the first "n" or "locn" entry has no non-empty string value, or is a "locn" while the tag is 0, the answer is BAD_REQUEST with name and tag unchanged |
| CoreRequests.ConPostBadAfterRetag | api/oc_core_res.c:299-316 | a retagging "locn" followed by a bad one answers BAD_REQUEST but keeps the new tag |
| CoreRequests.FilterResourceByRt | api/oc_core_res.c:900-927 | true iff the query has no non-empty rt value, or some non-empty value is a type of the resource |
| CoreRequests.RtMatchesCases | api/oc_core_res.c:900-927 | no query lets every resource through; a query naming a type lets it through; one naming none of its types rejects it |
| CoreTable.FreeProperties | api/oc_core_res.c:142-148 | a freed slot has no URI and no types and is not initialized |
| CoreTable.Populated | api/oc_core_res.c:621-651 | a populated slot is initialized, its URI starts with '/' and matches the given one, and its location tag is kept |
| CoreTable.DeviceTypes | api/oc_core_res.c:424-432 | "oic.wk.d" alone, or the given type followed by "oic.wk.d" |
| CoreTable.WithDevice | api/oc_core_res.c:419-451 | the table keeps its size when a device's slots are filled |
| CoreTable.Freed | api/oc_core_res.c:142-148 | the slots in use are freed, the rest kept |
| CoreTable.CoreResources.ResourceByIndex | api/oc_core_res.c:608-619 | a slot is returned iff MemoryIndex gives one that is initialized |
| CoreTable.CoreResources.ResourceByUri | api/oc_core_res.c:882-898 | the slot of the type the URI names, none for an unknown URI or invalid device |
| CoreTable.CoreResources.DeviceInfoOf | api/oc_core_res.c:662-669 | information exists iff the device is valid |
| CoreTable.CoreResources.ResourceByCoreUri | api/unittest/coreresourcetest.cpp:279-347 | a core URI with or without '/' finds its type's slot; "" finds nothing; a per-device URI for an invalid device finds nothing |
| CoreTable.CoreResources.IsSvr | api/oc_core_res.c:678-697 | the scan answers exactly the Svr predicate: a doxm..roles slot of a valid device |
| CoreTable.CoreResources.IsVertical | api/oc_core_res.c:700-727 | the scan answers exactly the Vertical predicate |
| CoreTable.CoreResources.IsDcr | api/oc_core_res.c:729-761 | the scan answers exactly the Dcr predicate |
| CoreTable.CoreResources.Populate | api/oc_core_res.c:621-651 | only the slot of the type and device is filled, and lookup by index then finds it |
| CoreTable.CoreResources.AddNewDevice | api/oc_core_res.c:369-482 | refused at OC_MAX_NUM_DEVICES or the 32-bit limit; otherwise the new device is the old count, the count grows by one, the new device is valid, its D slot (and /oc/con when announced) is found, and its names are stored |
| CoreTable.CoreResources.Shutdown | api/oc_core_res.c:120-155 | the platform name, every added device's names and every slot in use are freed; the count is 0; no lookup by index finds anything |
| CoreTable.CoreResources.Init | api/oc_core_res.c:85-102 | after shutdown every slot and device entry is blank |
| CoreTable.CoreResources.InitPlatform | api/oc_core_res.c:547-571 | once a name is stored nothing changes; otherwise /oic/p is populated and found, and the name is stored |
| CoreTable.CoreResources.BindRt | api/oc_core_res.c:484-509 | the new type goes in front of the D resource's types; nothing changes when the device has no D resource |
| CoreTable.CoreResources.ConHandlerPost | api/oc_core_res.c:267-331 | the answer, the device name and the D resource's location tag are those of ConPost; nothing else changes |

## Left out

- Socket construction and teardown are not modelled, because they are sequences of OS calls: `initialize_ip_context`, `connectivity_ipv4_init`, `oc_connectivity_init`, `oc_connectivity_shutdown`, the netlink socket setup, and all of `port/linux/tcpadapter.c`.
- The event thread, `select`, mutexes, and the shutdown and connect pipes are not modelled. Each compare-and-swap loop is one atomic step, so thread interleavings are not modelled.
- `process_events` (the loop that calls `process_event` once per ready descriptor) is not modelled. It adds only the repetition.
- The `process_event` logging loops, `process_socket_signal_event`'s `tcp_receive_signal` and `process_socket_write_event` are not modelled. Their handlers' results are parameters.
- The netlink, rtattr and cmsg macros, and the `get_data_size`/`get_data` peeking, are not modelled. Decoded records are the input.
- The EINTR retry loops around `send`, `recvmsg` and `read` are not modelled. An interrupted call and its retry count as one call.
- TCP sending (`oc_tcp_send_buffer`, `oc_tcp_send_buffer2`) and `tcp_receive_message` are not modelled. Their results are parameters (`tcpResult`, `tcpState`).
- Receive.ProcessSocketReadEvent and Receive.ProcessEvent: `tcp_receive_message` gets the read set (`port/linux/ipadapter.c:1040`), and the descriptors it clears there are a parameter (`tcpTaken`). What it writes into the message is not modelled, so after a TCP receive only the message's device and buffer size are stated.
- FdUtil.ToTimeval: the floating-point scaling `(ticks % OC_CLOCK_SECOND) * (1e6 / OC_CLOCK_SECOND)` is modelled in integer arithmetic. OC_CLOCK_SECOND is a parameter.
- AddressSynthesis.Walk: running out of batches before NLMSG_DONE is modelled as a read failure (false). In the source (`port/linux/ipadapter.c:498-505`) the next `recv` would block instead.
- Transmit.SendOracle: the kernel's `sendmsg` answer is assumed to be negative or between 1 and the bytes still unsent, and Transmit.SendMsg and Transmit.SentTotal rely on this. With an answer of 0 the loop at `port/linux/ipadapter.c:1277-1287` would never end, so the model does not say what happens then.
- Transmit.SendMsg: proved only for `sendmsg` answers that Transmit.SendOracle allows. A 0-byte answer is not covered: the source loop would spin on it.
- Endpoints.Message.constructor: oc_allocate_message lives in `oc_buffer.c`, which is not part of this model. A new message is assumed to have length 0, a blank endpoint for its device (interface index 0, no flags) and `encrypted` false. So RecvMsg reports interface index 0 when no packet-info control message arrives.
- IpContexts.ConnectivityGetEndpoints: the result tells "no context" (none) apart from "empty list" (`Some([])`). The C function returns `oc_list_head(dev->eps)` (`port/linux/ipadapter.c:686`), which is NULL in both cases, so a C caller cannot tell them apart.
- Ports are kept in host order. `ntohs` and `htons` (`port/linux/ipadapter.c:838`, `:867`, `:1310`, `:1318`) are the identity in the model.
- The scope id of `oc_ipv6_addr_t` is taken to be a `uint8_t`, as in iotivity-lite's `oc_endpoint.h`, which is not part of this model. The stores at `port/linux/ipadapter.c:557` and `:837` therefore truncate (Common.ToUint8).
- The `addr` union of `oc_endpoint_t` is modelled as separate IPv6 and IPv4 fields, so aliasing between them is not captured. A NULL socket-address storage is a boolean.
- InterfaceChange.ProcessInterfaceChangeEvent: requires each device number to be served by at most one context (`DistinctDevices`), as `oc_connectivity_init` arranges.
- `oc_send_discovery_request` and the per-interface discovery sends are not modelled. They are setsockopt calls per interface.
- In `oc_core_res.c` the following are not modelled: CBOR encoding and the GET handlers; `oc_gen_uuid`; the discovery and introspection resources `oc_core_add_new_device` creates; `oc_connectivity_init` and `oc_set_drop_commands`; `oc_notify_observers_delayed`; the `/oc/con` write callback; and the `add_device_cb`/`data` fields. These are calls into code that is not part of this model.
- OC_DYNAMIC_ALLOCATION (the `realloc` growth of the table) is not modelled. The table has static size.
- `oc_str_to_enum_locn` is a parameter `locnOf`.
- `oc_ri_free_resource_properties` is modelled as clearing the URI and types. `oc_resource_is_initialized` is modelled as "has a URI". Both come from `oc_ri.c`, which is not part of this model.
- The interface-mask decoder (`oc_ri_get_interface_mask`, in `oc_ri.c`) is not part of this model, so no decode-after-encode round trip is stated.
- The numeric values of `oc_core_resource_t` and of the interface bits (from `oc_ri.h`, which is not part of this model) follow the header's order for the configuration above.
- `oc_core_set_latency`, `oc_core_get_latency`, `oc_set_con_res_announced`, `oc_get_con_res_announced`, `oc_core_get_num_devices` and `oc_core_get_device_id` are plain field accesses. They appear as the fields `deviceCount` and `announceCon` of the class.
