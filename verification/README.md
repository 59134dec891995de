# Verification of agent-nettools

A Dafny model of the stateful, concurrent and byte-level parts of agent-nettools, with proofs of what they are
meant to guarantee. `dafny verify dfyconfig.toml` covers the whole project (Dafny 4.11).

## What is modelled

| file | models |
|---|---|
| `Bytes.dfy`, `Arithmetic.dfy` | bytes, 16-bit fields, buffers filled in place, the two binary forms of an IP address; multiples and powers |
| `IpPool.dfy` | the pool of 245 virtual IPs that `n2n` and `stunvpv` each have |
| `N2nProtocol.dfy` | n2n packets, registration payloads and peer lists |
| `N2nSupernode.dfy` | the supernode's tables and handlers, as a class with mutable tables |
| `N2nLeases.dfy` | the same handlers cut into their lock sections and interleaved: the lease protocol |
| `N2nHeartbeat.dfy` | the edge, and one heartbeat from edge to supernode and back |
| `FakeDns.dfy` | the fake-IP allocator: carry loop, wraparound, forward and reverse maps |
| `StunRelay.dfy` | STUN-VPN control frames, demultiplexing and the relay path client, server, client |
| `ProxyStats.dfy` | per-proxy counters with double-checked creation |
| `LogStream.dfy` | the bounded log ring, subscriptions, and replay followed by live streaming |
| `DnsCache.dfy` | the DNS cache and the caching resolver |
| `UrlTest.dfy`, `RoundRobin.dfy` | choosing a proxy by latency and by turns |
| `TextFormat.dfy` | terminal line wrapping and size formatting |
| `ProxyCodecs.dfy` | SOCKS5 CONNECT (sections 3 to 6 of RFC 1928), the UDP relay header, the FRP header |

Components that mutate state are classes whose methods are proved against functions on a value of that state.
Where goroutines interleave, the same functions are the steps of a state machine, one step for each lock section
or atomic operation, and theorems range over every sequence of enabled steps. Clock readings are parameters;
time never goes back.

Conventions:

- An IP address is its bytes. `Key` is its canonical form, 4 bytes when the address is IPv4 in either notation. It
  stands for the text `IP.String()`, which the program uses only as a map key and for comparison.
- The text of a UDP address is a byte string of at most 47 bytes, the longest `[host]:port`.
- Encryption is a pair of functions of which the second undoes the first under any nonce.
- Go slices that are only read are sequences; buffers that are filled are arrays.

Where a law of the original holds only sometimes, the condition is stated as an equivalence: a peer list
round-trips up to 65535 peers, a packet when both addresses are of one family, wrapping ends on every text for
limits of at least 14 (the terminal calls it with its width less 12), the fake-IP maps are inverses up to one cycle
of distinct domains, reserved addresses stay reserved when the network contains its first address, peers
stay indexed when no two share an address, log entries arrive in the order of their appends when appends do
not overlap, and headers are recovered when their fields fit. Four things a reader may not expect:

- A registration payload that announces more than it holds makes the n2n supernode slice out of range in a
  goroutine that nothing recovers: the process ends (`RegisterCrashIff`).
- A STUN-VPN data frame to an IPv6 address with 2112:a442 in its bytes 2 to 5 is taken for a STUN message and
  never relayed (`RelayEndToEnd`).
- Overlapping log writes can reach a listener in the wrong order (`OverlapReorders`).
- An IPv6 fake network around the IPv4 addresses wraps around below them (`CycleLengths`).

The documentation comment of `proxy/udp.go` draws four fixed bytes before the address; the code writes three,
with the address type third. The model follows the code.

## Model

| member | source | states |
|---|---|---|
| Bytes.BigEndian | n2n/protocol.go:49-50 | 16-bit fields are written and read high byte first |
| Bytes.WireForms | n2n/protocol.go:29-36 | an address of 4 bytes goes as it is, one of 16 as its last four if it begins with ten zeros and two 255 and else as it is, and any other not at all; the same form is its key |
| N2nProtocol.MarshalPacket | n2n/protocol.go:28-53 | the buffer filled in place is the packet's wire form, for every packet, also with a missing source or a destination of the other family |
| N2nProtocol.UnmarshalPacket | n2n/protocol.go:55-82 | total on arbitrary bytes, with the four rejections in the original's order |
| N2nProtocol.PacketBytes | n2n/protocol.go:28-53 | the wire form byte by byte, field by field, for every packet |
| N2nProtocol.DecodePacketIff | n2n/protocol.go:55-82 | what is accepted is exactly bytes of that shape, with any bytes behind them |
| N2nProtocol.PacketTransit | n2n/protocol.go:28-82 | what any packet becomes on the other side, trailing bytes or not: type kept, addresses in wire form, payload up to its length modulo 65536 |
| N2nProtocol.PacketRoundTripIff | n2n/protocol.go:28-82 | the round trip is exact if and only if the source is an address, both are of one family and the payload is under 65536 bytes |
| N2nProtocol.PacketRejections | n2n/protocol.go:55-82 | what is rejected for what: length under four, address length, header, payload, in this order |
| N2nProtocol.OnTheWire | n2n/edge.go:229-249 | without a key the packet itself is sent and read, with one what is sealed and opened |
| N2nProtocol.SentAndReceived | n2n/edge.go:229-249 | through encoding, encryption and back a packet arrives with its addresses in wire form and its payload as far as 16 bits announce it |
| N2nProtocol.CutPacketRejected | n2n/protocol.go:55-82 | no strict prefix of a packet is accepted |
| N2nProtocol.MarshalRegister | n2n/protocol.go:98-108 | the buffer filled in place is the payload |
| N2nProtocol.RegisterBytes | n2n/protocol.go:98-108 | the payload byte by byte |
| N2nProtocol.DecodeRegisterIff | n2n/protocol.go:110-123 | what is accepted is exactly bytes of that shape, with any bytes behind them |
| N2nProtocol.RegisterRoundTripIff | n2n/protocol.go:98-123 | a registration payload is recovered if and only if its three fields fit 16 bits |
| N2nProtocol.CutRegister | n2n/protocol.go:98-123 | a registration cut after any byte: an error below six bytes, the whole one read back, and in between the decoder slices out of range |
| N2nProtocol.RegisterCrashIff | n2n/protocol.go:110-123 | the decoder slices out of range if and only if a payload of at least six bytes is shorter than its two length fields announce, as FF FF 00 00 00 00 is |
| N2nProtocol.MarshalPeerList | n2n/protocol.go:125-143 | the append loop produces the encoded list |
| N2nProtocol.UnmarshalPeerList | n2n/protocol.go:145-175 | total on arbitrary bytes without an out-of-range read, and equal to the decoding the theorems below are about |
| N2nProtocol.EntryBytes | n2n/protocol.go:128-141 | an entry byte by byte |
| N2nProtocol.PeerListBytes | n2n/protocol.go:125-143 | a list byte by byte: the count, then entry after entry |
| N2nProtocol.DecodeEntryIff | n2n/protocol.go:153-172 | what is read as an entry is exactly bytes of that shape, with an address of any length |
| N2nProtocol.DecodeListExact | n2n/protocol.go:145-175 | any bytes decode to the entries that stand one behind the other after the count, as many as it says or as there are, and to an error only below two bytes |
| N2nProtocol.TruncatedPeerList | n2n/protocol.go:125-175 | the first k bytes of an encoded list decode to the longest prefix of the listed peers whose entries fit wholly in k bytes |
| N2nProtocol.PeerListRoundTripIff | n2n/protocol.go:125-175 | the whole buffer gives back every peer, in order, if and only if there are fewer than 65536 |
| N2nProtocol.LearnedAppend | n2n/edge.go:150-156 | learning a list is entering its peers from the front as well as from the back, so one more round of the loop is one more listed peer |
| N2nProtocol.LearnedExact | n2n/edge.go:150-156 | every entry of the map after a list: the last peer listed for it, or as before, and for the own address always as before |
| N2nProtocol.LearnPeers | n2n/edge.go:145-157 | a received list enters its peers one by one, the reader itself excepted; an undecodable one changes nothing |
| IpPool.IpAllocator.Allocate | n2n/supernode.go:49-63 | leases the lowest free host address of the network of the base, from .10 to .254, and marks it and no other; or changes nothing, when all of them are leased |
| IpPool.FirstFreeIsLowest | n2n/supernode.go:52-62 | the address given has all bytes of the base but the last, and all lower ones are in use |
| IpPool.IpAllocator.Release | n2n/supernode.go:65-69 | gives back that address and no other |
| IpPool.FirstFree | n2n/supernode.go:52-62 | the lowest free host number, or none because all are leased |
| IpPool.ExhaustedIff | n2n/supernode.go:49-63 | an allocation is refused if and only if the whole pool is leased |
| IpPool.PoolSize | n2n/supernode.go:52-56 | the pool has 245 different keys |
| N2nSupernode.Supernode.constructor | n2n/supernode.go:71-81 | starts with empty tables and an empty pool |
| N2nSupernode.Supernode.HandleRegister | n2n/supernode.go:144-183 | a registration takes the two steps of the lease protocol, or none, or ends the process; what that comes to is `RegistrationExact` |
| N2nSupernode.RegistrationExact | n2n/supernode.go:144-183 | in terms of the tables: a payload on which the decoder slices out of range ends the process; another undecodable or a foreign one, or a full network, changes nothing; any other registration leases the lowest free host address, enters the sender with address, time, community and hostname, indexes it, leaves all else alone, and is acknowledged with that address and a list of all peers |
| N2nSupernode.AckBytes | n2n/supernode.go:171-176 | the acknowledgement byte by byte: length and virtual IP, two bytes of length, and a list that reads back |
| N2nSupernode.Supernode.Insert | n2n/supernode.go:157-164 | the table entry and the index entry of one registration |
| N2nSupernode.Supernode.HandleHeartbeat | n2n/supernode.go:185-205 | refreshes the sender and answers with a list of all peers |
| N2nSupernode.HeartbeatExact | n2n/supernode.go:185-205 | in terms of the tables: both time stamps of the sender and nothing else change, and the answer is the packet itself with kind 4 and a list holding each peer once |
| N2nSupernode.Supernode.HandleBye | n2n/supernode.go:225-235 | removes the sender, or changes nothing |
| N2nSupernode.ByeExact | n2n/supernode.go:225-235 | in terms of the tables: the sender's entry, lease and indexed address go, if it is a peer, and nothing else |
| N2nSupernode.Supernode.HandlePacket | n2n/supernode.go:120-142 | decrypt, decode and dispatch: what each kind of datagram makes of the tables, and what is answered |
| N2nSupernode.Supernode.Cleanup | n2n/supernode.go:283-296 | the deleting loop, in any map order, removes the stale peers |
| N2nSupernode.CleanupExactly | n2n/supernode.go:283-296 | in terms of the tables: the entries, leases and indexed addresses of the peers silent for more than 300 seconds go, and nothing else |
| N2nSupernode.Supernode.Snapshot | n2n/supernode.go:193-201 | the list built by iterating over the map holds each peer's record exactly once |
| N2nSupernode.AckedVipRoundTrip | n2n/supernode.go:171-176 | the edge reads its assigned virtual IP back from a RegisterAck payload |
| N2nSupernode.CutAck | n2n/edge.go:103-110 | cut after any byte, a RegisterAck payload gives the virtual IP if that and one more byte are there, and else the edge indexes or slices out of range |
| N2nLeases.InitInv | n2n/supernode.go:80 | the empty supernode satisfies the invariant |
| N2nLeases.StepKeepsInv | n2n/supernode.go:152-169 | every lock section keeps the invariant: leases balance, registrations in flight are apart from each other and from live peers, the index is sound, all keys come from the pool |
| N2nLeases.RunKeepsInv | n2n/supernode.go:144-296 | and so does every interleaving of register, heartbeat, bye, cleanup and time |
| N2nLeases.NoOverwrite | n2n/supernode.go:152-164 | in every reachable state a registration that may write its entry finds its key vacant, leased, and held by no other registration |
| N2nLeases.LeasesExact | n2n/supernode.go:49-69 | in every reachable state the leases are the peers not half removed plus the registrations in flight, disjointly; in a quiet state exactly the peers; never more than 245 |
| N2nLeases.PeersInNetwork | n2n/supernode.go:52-56 | in every reachable state the virtual IP of each peer and each registration in flight has all bytes of the base but the last, and that from 10 to 254 |
| N2nLeases.IndexSoundAlways | n2n/supernode.go:156-168 | in every reachable state an indexed address belongs to the live peer the index names, however often an address registers and in whatever order its peers go |
| N2nLeases.IndexStaysCompleteIff | n2n/supernode.go:156-168 | from a reachable state in which every peer is indexed, every run in which no address registers while a peer of that address is live keeps every peer indexed, if and only if no two live peers share an address at the start |
| N2nLeases.SharedAddressUnindexed | n2n/supernode.go:225-235 | two registrations from one address and a bye of the first, possible from any reachable state with two addresses left, reach a state with a live peer not indexed |
| N2nLeases.LockHolderProceeds | n2n/supernode.go:225-296 | in every reachable state the holder of the table lock can take its next step, a cleanup with any peer not yet visited, and gives the lock up at the end |
| N2nLeases.UninterruptedHandlers | n2n/supernode.go:144-235 | the class's register and bye handlers are their lock sections taken one after the other |
| N2nLeases.CleanupExact | n2n/supernode.go:283-296 | a cleanup interleaved with anything that can run beside it, in any map order, removes exactly the peers more than five minutes silent at its beginning |
| N2nLeases.AttentivePeerKept | n2n/supernode.go:185-192 | over any run in which a peer's processed heartbeats are at most five minutes apart and no bye of it is handled, it keeps virtual IP, address and lease, and nobody else is given its virtual IP |
| N2nLeases.InsertedPeerHolds | n2n/supernode.go:157-164 | a registration starts such a run, its address indexed |
| N2nHeartbeat.Edge.HandlePeerList | n2n/edge.go:145-157 | an undecodable list changes nothing, any other enters the map peer by peer, the edge itself left out |
| N2nHeartbeat.Edge.HandlePacket | n2n/edge.go:126-143 | after decryption and decoding, kinds 4 and 8 enter the peers listed, kind 7 gives a known sender a new address, and any other kind changes nothing, entry by entry of the peer map |
| N2nHeartbeat.EdgeLearnsExact | n2n/edge.go:145-190 | the same for the function the end-to-end theorem is about |
| N2nHeartbeat.BroadcastLearned | n2n/supernode.go:237-254 | the broadcast after a registration, sealed and received, enters the new peer at its address unless it is the edge itself, and changes nothing else |
| N2nHeartbeat.RegistrationArrives | n2n/edge.go:84-92 | the edge's registration, sealed and received, is a registration with its community, hostname and port |
| N2nHeartbeat.Edge.SendHeartbeat | n2n/edge.go:269-272 | sends the heartbeat packet, encoded and sealed |
| N2nHeartbeat.SnapshotFits | n2n/supernode.go:193-204 | from every reachable state the list of all peers takes at most 16417 bytes, so its 16-bit length is exact |
| N2nHeartbeat.SnapshotLearned | n2n/edge.go:145-157 | after a full list the edge has every other peer at its listed address, and no other entry is changed |
| N2nHeartbeat.HeartbeatEndToEnd | n2n/edge.go:269-272 | from any reachable state, encryption included: the request arrives as the edge's own heartbeat, the answer arrives whole, and the edge maps every other peer to the supernode's address for it, never itself, and nothing else changes |
| FakeDns.CarryIsPlusOne | dns/fake.go:62-67 | the byte-carry step is addition of one modulo 256 to the number of bytes, for any number of bytes |
| FakeDns.FakeDns.Increment | dns/fake.go:62-67 | the loop on the counter's bytes, in place, is that step |
| FakeDns.FakeDns.Advance | dns/fake.go:62-71 | carry, range check and wraparound, in place |
| FakeDns.FakeDns.constructor | dns/fake.go:19-48 | empty maps, and gateway, DNS server and first address with the network's leading bytes and 1, 2 and 3 at the end |
| FakeDns.FakeDns.Allocate | dns/fake.go:54-75 | a known domain gets its address and changes nothing; a new one gets the counter's, both maps gain it, and the counter advances |
| FakeDns.NamedBackIff | dns/fake.go:54-82 | looking a domain's address up again gives that domain if and only if at most one cycle of distinct domains, it included, have come since, and otherwise a later one |
| FakeDns.NetHasShape | dns/fake.go:68-71 | for every IPv4 and IPv6 prefix, masked containment is an interval of 2 to the number of host bits, in IPv6 without the addresses that are IPv4 ones |
| FakeDns.NextValue | dns/fake.go:62-71 | carry, range check and wraparound together advance to the next position of the counter's cycle, whatever the network |
| FakeDns.CycleLengths | dns/fake.go:28-38 | the cycle has size - 3 addresses when the prefix leaves the last byte free, and with two host bits when the network ends in a zero byte; in an IPv6 network around the IPv4 addresses it ends below them; when the last byte is over 4 all domains get one address |
| FakeDns.RunSteps | dns/fake.go:54-75 | each call of a run is the step the method is proved against |
| FakeDns.FirstIpInsideIff | dns/fake.go:28-30 | for every prefix: the first address lies in the network if and only if the prefix leaves the last byte free or the network's last byte is 3 masked |
| FakeDns.RunShape | dns/fake.go:54-75 | after any run both maps and the counter are those tabulated from the distinct domains in order |
| FakeDns.ClosedForm | dns/fake.go:54-75 | in every network, IPv4 or IPv6 and of any prefix, the k-th distinct domain of any run has the first address plus k modulo the length of the cycle, and up to a cycle of consecutive ones have different addresses |
| FakeDns.NeverReservedIff | dns/fake.go:28-38 | no run ever gives out the network's own, the gateway's or the DNS server's address or one outside the network, if and only if the network is not the IPv4 /0, contains the first address, and has another address of its own |
| FakeDns.MappedNetWrapsOutside | dns/fake.go:68-71 | a network in IPv4-mapped IPv6 notation wraps to 0.0.0.3, since the first four of its sixteen bytes are copied |
| FakeDns.ReverseAgrees | dns/fake.go:72-82 | in every network, IPv4 or IPv6, and after any run: an address is named if and only if some domain has it, and by one that has it |
| FakeDns.AddressKept | dns/fake.go:57-59 | in every network a domain keeps its address for the rest of any run |
| FakeDns.InversesIff | dns/fake.go:72-89 | the two maps are inverses if and only if at most one cycle of distinct domains has been seen |
| StunRelay.MakeControlMessage | stunvpv/server.go:324-341 | the buffer filled in place is the control frame, for IPv4, IPv6 and no address |
| StunRelay.FrameBytes | stunvpv/server.go:324-341 | the frame byte by byte |
| StunRelay.ParseIff | stunvpv/server.go:162-181 | what is read as a frame is exactly bytes of that shape, the payload cut short or followed by more |
| StunRelay.CutFrame | stunvpv/server.go:162-181 | a frame cut after any byte reads as nothing inside its header and afterwards as the part of the payload that arrived |
| StunRelay.FrameIsStunIff | stunvpv/server.go:130-138 | a frame is taken for STUN if and only if its address is IPv6 with the magic cookie in bytes 2 to 5; no IPv4 frame is |
| StunRelay.Server.HandleRegister | stunvpv/server.go:191-215 | a named address or the lowest free one is entered and indexed under the sender; nothing happens when none is free |
| StunRelay.UnspecifiedIff | stunvpv/server.go:195-196 | a registration names no address if and only if its address is all zero, or zero as IPv4 written in 16 bytes |
| StunRelay.NamedRegistration | stunvpv/server.go:191-215 | in terms of the tables: a registration that names its address, from wherever, enters and indexes the sender under it with time and hostname, changes no lease and no other peer, and data for the address arrives there from then on |
| StunRelay.UnnamedRegistration | stunvpv/server.go:191-215 | in terms of the tables: one that names none is given, entered under and leased the lowest free host address, or changes nothing when there is none |
| StunRelay.OtherFramesChangeNothing | stunvpv/server.go:183-188 | frames of other kinds leave the tables alone |
| StunRelay.Server.HandleRelayData | stunvpv/server.go:252-279 | relays to a known peer from an indexed sender and is silent otherwise |
| StunRelay.Server.HandlePacket | stunvpv/server.go:130-189 | STUN and malformed packets change nothing; registrations change the tables; what is relayed is the answer `RelayEndToEnd` is about |
| StunRelay.Client.HandlePacket | stunvpv/client.go:176-205 | data frames reach the callback with address and payload, peer lists enter the map entry by entry, anything else does nothing |
| StunRelay.PeerListFrameRead | stunvpv/client.go:207-219 | the frame of a peer list enters every peer listed, the client itself excepted, and changes nothing else |
| StunRelay.Client.SendRegister | stunvpv/client.go:123-128 | the first registration names no address, the later ones the client's |
| StunRelay.Client.HandlePeerList | stunvpv/client.go:207-219 | an undecodable list changes nothing, any other enters the map, the client itself left out |
| StunRelay.Client.SendTo | stunvpv/client.go:227-231 | what is sent is the data frame for the destination |
| StunRelay.RelayEndToEnd | stunvpv/server.go:252-279 | a data frame from an indexed sender to a peer whose address does not spell the cookie comes out as one datagram to the peer's address that the peer decodes to the sender's virtual IP and the payload, whole if and only if under 65536 bytes; any other data frame comes to nothing |
| StunRelay.FirstRegistration | stunvpv/client.go:123-128 | a first registration is never taken for STUN and is read as asking for an address |
| StunRelay.ServedKeepsIndex | stunvpv/server.go:191-215 | every packet keeps the premise of that: the index names virtual IPs only |
| StunRelay.RegisterThenRelay | stunvpv/server.go:191-279 | after the first registrations of two clients, on any network, whatever the tables held, and through any packets that do not re-register either address or claim either virtual IP, each reaches the other, from its own virtual IP and with the payload intact, unless the network spells the cookie, where neither ever does |
| StunRelay.CookieNetworkExists | stunvpv/server.go:130-138 | fd00:2112:a442::/64 is a network of that kind |
| ProxyStats.StatsTracker.GetOrCreate | web/stats.go:30-45 | the record of a name, created at zero if there was none |
| ProxyStats.StatsTracker.AtomicAdd | web/stats.go:49-60 | an add to one counter of one record, wrapping as int64 |
| ProxyStats.StatsTracker.RecordTraffic | web/stats.go:47-51 | upload and download of the name grow by the two amounts, as int64, its connections and all other records stay |
| ProxyStats.StatsTracker.AddConnection | web/stats.go:53-56 | one more connection for the name and nothing else |
| ProxyStats.StatsTracker.RemoveConnection | web/stats.go:58-61 | one connection fewer for the name and nothing else |
| ProxyStats.StatsTracker.GetStats | web/stats.go:63-76 | reports each name's record and no other names |
| ProxyStats.CountsExact | web/stats.go:30-61 | in every interleaving there is exactly one record per name, and upload, download and connections are each the sum of the amounts added to that counter for the name, modulo 2^64 |
| ProxyStats.WrapExact | web/stats.go:49-50 | an int64 is the one number of its range that differs by a multiple of 2^64 |
| ProxyStats.UnwrappedIff | web/stats.go:49-50 | the counter is the sum itself if and only if the sum is an int64 |
| ProxyStats.NeverReplaced | web/stats.go:39-44 | a name's record, once created, is never replaced |
| ProxyStats.ReportExact | web/stats.go:63-76 | each number of a report, loaded one by one among the steps of other goroutines, is the sum of all adds for its name completed up to some moment during the call, modulo 2^64 |
| LogStream.LogRing.constructor | web/logs.go:56-66 | an empty ring of the given size, 1000 if none is given |
| LogStream.LogRing.Write | web/logs.go:76-106 | the ring stays the tail of the history, and every listener's buffer gains the entry unless it is full |
| LogStream.LogRing.Subscribe | web/logs.go:108-113 | adds an empty buffer to the listeners |
| LogStream.LogRing.Recent | web/logs.go:121-130 | the last entries of the history, as many as asked for and held |
| LogStream.RecentIsTail | web/logs.go:121-130 | a positive request within the ring's size gets min(n, count) entries |
| LogStream.RecentAll | web/logs.go:121-130 | a request for none, or for more than the ring holds, gets all it holds |
| LogStream.RingIsTail | web/logs.go:83-87 | in every interleaving the ring is the last min(count, size) entries of the append history |
| LogStream.RunKeepsInv | web/logs.go:76-113 | conservation at every channel in every interleaving: each entry since the subscription is in exactly one place, once |
| LogStream.ChannelGrows | web/logs.go:97-105 | what a handler has received and its buffer has accepted only grows at the end, and nothing is dropped unless the buffer was full |
| LogStream.OrderIff | web/logs.go:83-105 | from any reachable state and for any number of listeners: all runs without overlapping appends bring a listener its entries in the order of the appends, if and only if what it has accepted is in order and at most one entry, a later one, is on its way to it |
| LogStream.StepKeepsOrderIff | web/logs.go:83-105 | a step keeps a listener in that condition if and only if it is not an append while another writer has yet to serve it |
| LogStream.EntriesInOrder | web/logs.go:83-105 | so a subscriber gets its entries in the order they were appended, in every run without such an append |
| LogStream.OverlapReorders | web/logs.go:83-105 | and after any such append, in any reachable state, some continuation without further appends brings the entries in the wrong order |
| LogStream.OverlapReached | web/logs.go:83-105 | one subscription and one write begun already make such an append possible |
| LogStream.StreamComplete | web/handlers.go:123-142 | every entry from the first replayed one on is replayed, received, buffered, held by its writer or dropped by a full buffer; those after the replay exactly once; and a replayed one also comes by the stream if and only if it was appended after the subscription |
| DnsCache.Cache.Set | dns/cache.go:31-38 | stores the answer with its expiry and nothing else |
| DnsCache.Cache.Get | dns/cache.go:40-51 | finds exactly the entries not yet expired |
| DnsCache.Cache.Cleanup | dns/cache.go:53-65 | the deleting loop, in any map order, keeps exactly the entries not yet expired, as they are |
| DnsCache.CacheTransparent | dns/cache.go:31-65 | cleanup rounds anywhere in a run change no result of `Get` |
| DnsCache.KeyInjective | dns/resolver.go:167 | domain and query type can both be read off the cache key, colons in the domain or not |
| DnsCache.DecimalReadsBack | dns/resolver.go:167 | the query type stands in the key in decimal digits without leading zeros |
| DnsCache.Resolve | dns/resolver.go:166-185 | a hit answers from the cache and stores nothing; a miss passes the inner answer on and stores it, or the error and stores nothing |
| DnsCache.HitsAreRecentAnswers | dns/resolver.go:166-185 | in every interleaving a hit is, address for address, the latest inner answer for the same domain and query type, at most ttl old |
| DnsCache.AnswersAreServed | dns/resolver.go:166-185 | once stored, an inner answer serves every resolution of the same domain and query type for ttl, through any cleanups, unless a newer answer is stored |
| UrlTest.Group.constructor | proxy/urltest.go:21-32 | the first member is best, none has failed, none has a latency |
| UrlTest.Group.PickBest | proxy/urltest.go:72-89 | the best if it has not failed, else the first in configured order that has not, all before it having failed, which becomes best; none only if all have failed |
| UrlTest.Group.MarkFailed | proxy/urltest.go:91-95 | marks one name |
| UrlTest.Group.Record | proxy/urltest.go:136-151 | the two loops over sorted outcomes: marks and latencies of all, then the first success becomes best |
| UrlTest.SortedMarks | proxy/urltest.go:131-144 | a name is marked failed if and only if one of its outcomes is an error, even if a member is listed twice and whatever order ties take |
| UrlTest.ProbeExact | proxy/urltest.go:109-152 | after a probe a member with an outcome is failed if and only if it erred, one whose outcome was lost is as before, and best has the least latency of the successes if there are any |
| UrlTest.LatenciesExact | proxy/urltest.go:131-138 | with each member listed once, the recorded latency of each is the one just measured |
| UrlTest.PickExact | proxy/urltest.go:72-89 | in every run of probes, with or without lost outcomes, marks and picks, best is a member, a pick is a member not failed, and a pick errs if and only if all members have failed |
| UrlTest.PickAfterProbe | proxy/urltest.go:72-152 | with each member listed once, a pick after a probe with a success is the fastest success |
| RoundRobin.Group.Next | proxy/round_robin.go:23-29 | draws the next ticket and reduces it to a position; a negative one, past 2^63, counts as 0 |
| RoundRobin.Fair | proxy/round_robin.go:27-29 | in every interleaving of up to 2^63 connects each position is chosen the floor or the ceiling of the average, the first positions the ceiling |
| TextFormat.WrapLines | agent/tui.go:1035-1055 | the nested loops end, and the output is made of the wrappings of the lines, each well cut |
| TextFormat.PiecesWrap | agent/tui.go:1038-1052 | every piece is within the limit, every continuation has the indent, and without the indents the pieces are the line again |
| TextFormat.Chop | agent/tui.go:1039-1043 | an overlong line is cut at the last space in the second half of the first limit bytes, else after limit bytes |
| TextFormat.PiecesWellCut | agent/tui.go:1038-1049 | every piece of a line but its last ends at the last space in the second half of the limit, or is as long as the limit when there is none |
| TextFormat.AllPiecesWrap | agent/tui.go:1035-1055 | the output is the wrappings of the input lines one after the other |
| TextFormat.LinesSplit | agent/tui.go:1037 | the lines joined by newlines are the text |
| TextFormat.WrappingEndsIff | agent/tui.go:1038-1049 | the inner loop ends on every line if and only if the limit is at least 14 |
| TextFormat.HumanSize | agent/helpers.go:31-42 | the divisor is the power of 1024 with div <= n < 1024 div, below 2^63, and the unit index stays within the six letters |
| ProxyCodecs.SendRequest | proxy/socks5.go:79-109 | the request bytes for a name, by what its lookup gave: an IPv4 address in either notation, another IPv6 address, or none |
| ProxyCodecs.RequestLayout | proxy/socks5.go:79-109 | the request byte by byte |
| ProxyCodecs.Handshake | proxy/socks5.go:39-58 | the greeting, byte by byte, and the authentication the server's answer asks for |
| ProxyCodecs.DestLayout | proxy/socks5.go:86-107 | a destination byte by byte, for each kind of address |
| ProxyCodecs.ReadDestIff | forward/forward.go:347-379 | what is read as a destination is exactly bytes of that shape |
| ProxyCodecs.Conn.ReadSocks5Addr | forward/forward.go:347-379 | the sequential reads decode an address and port wholly present, and nothing else |
| ProxyCodecs.HandleConnect | forward/forward.go:304-344 | the outcome of the handshake on any input, the bytes consumed, and the bytes the client reads: the choice of no authentication, and ten bytes with code 7 for what is no CONNECT, 1 for an address cut short or of unknown type, 0 or 4 as the destination was dialled or not |
| ProxyCodecs.DialedDest | forward/forward.go:325-333 | what is dialled is the destination whose bytes stand in the request |
| ProxyCodecs.ConnectAnswered | forward/forward.go:304-344 | after either greeting and any request the client reads 05 00 and then 05 00 or 05 04 with a zero address, as the destination was dialled or not |
| ProxyCodecs.ConnectRecovered | forward/forward.go:304-333 | after either greeting the server dials the client's destination and leaves what follows; cut anywhere, the handshake dials nothing |
| ProxyCodecs.ConnectRecoveredIff | proxy/socks5.go:39-109 | the destination is recovered if and only if domain and port fit their fields |
| ProxyCodecs.EncodeUdpHeader | proxy/udp.go:31-55 | the header bytes for each kind of destination |
| ProxyCodecs.ParseUdpHeader | proxy/udp.go:60-100 | total on arbitrary bytes, rejecting exactly the datagrams without a whole header |
| ProxyCodecs.UdpLayout | proxy/udp.go:31-55 | the header byte by byte |
| ProxyCodecs.ParseUdpIff | proxy/udp.go:60-100 | what is accepted is exactly bytes of that shape, and the rest is the payload |
| ProxyCodecs.UdpRecovered | proxy/udp.go:31-100 | header and payload are separated again; every strict prefix of the header is rejected |
| ProxyCodecs.UdpRecoveredIff | proxy/udp.go:31-100 | the header is recovered if and only if domain and port fit their fields |
| ProxyCodecs.WriteFrpHeader | proxy/frp.go:115-122 | the header bytes |
| ProxyCodecs.ReadFrpHeader | proxy/frp.go:124-148 | the sequential reads decode a header wholly present, consume exactly it, and reject anything else |
| ProxyCodecs.FrpLayout | proxy/frp.go:115-122 | the header byte by byte |
| ProxyCodecs.ReadFrpIff | proxy/frp.go:124-148 | what is accepted is exactly bytes of that shape with a length of at most 1024 |
| ProxyCodecs.FrpRecovered | proxy/frp.go:115-148 | secret and port are recovered, following bytes left alone, every strict prefix rejected |
| ProxyCodecs.FrpRecoveredIff | proxy/frp.go:115-148 | they are recovered if and only if the secret is under 256 bytes and the port under 65536 |

## Left out

- Sockets, deadlines, goroutine start, loss and reordering of datagrams, logging, files, JSON and HTTP output.
- The rendering of IP addresses and UDP addresses as text and its parsing: one canonical form stands for each.
- Cryptography: only that decryption undoes encryption. `wireguard/`, `tinc/` and Shadowsocks are not modelled.
- The peer list inside a RegisterAck: the supernode writes a two-byte length and the edge reads one byte, so only the virtual IP is claimed to come back.
- n2n hole punching and data packets: the supernode has no case for data packets. The supernode of the model does not send the broadcast after a registration; `BroadcastLearned` says what it teaches.
- N2nSupernode.Supernode.HandleRegister: the reply is the packet returned; sending it is left out, and so is the broadcast.
- N2nLeases.AttentivePeerKept: speaks of heartbeats the supernode has processed; a lost heartbeat counts as not sent.
- N2nLeases.RunKeepsInv: a run ends where a registration payload makes the process crash (`RegisterCrashIff`).
- N2nSupernode.Supernode.HandlePacket: a connection request reads the tables and is answered; the two answers are not part of this model.
- N2nProtocol.PeerListRoundTripIff: requires address texts under 65536 bytes each, which `SnapshotFits` shows for every list the supernode sends.
- FakeDns.ClosedForm: takes IPv4 networks in IPv4 notation; `MappedNetWrapsOutside` says what goes wrong in the other.
- `FakeDns.AddStatic`, which can repoint a domain.
- StunRelay.Server.HandlePacket: STUN answers, the registration acknowledgement and the peer-list broadcast are not among the datagrams returned.
- `stunvpv` cleanup and bye, so `RegisterThenRelay` is about the time between cleanups: a client may register under an address of its own choosing without leasing it, so leases and peers need not agree there.
- `stunvpv` has its own copies of the address pool and of the peer-list codec; they are modelled once, in `IpPool` and `N2nProtocol`. Resolving the listed address texts is left out.
- ProxyStats.StatsTracker.GetStats: reads all counters at one moment; `ReportExact` is about the single loads of the original.
- LogStream.LogRing.Write: the copy to a log file is left out.
- Cancelling a log subscription: it removes by the position remembered at subscription, which is stale once an earlier listener has gone.
- UrlTest.Group.Record: the probes themselves run elsewhere. Their goroutines append to the results without a lock, so an outcome may be lost; any list of outcomes of members is covered, and that all members are reported is a premise only where it is said. Sorting is any order the comparison allows.
- RoundRobin.Fair: ends at 2^63 connects, where the int64 counter turns negative and every ticket becomes position 0.
- TextFormat.HumanSize: the rounding of the printed quotient is left out.
- The client's parsing of SOCKS5 replies, which reads fewer bytes than the server writes, user name authentication, and UDP association.
- Router rules, configuration, failover, load balancing, the agent's tools and commands.
