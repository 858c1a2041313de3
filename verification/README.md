# Verification of the proxy's concurrent engine, codecs and managers

This project models the hardest parts of a Minecraft Bedrock proxy server written in Go and
proves properties of them in Dafny 4.11. Run `dafny verify dfyconfig.toml`.

## What is modelled

* **Batch proxy tests** (`BatchModel`, `BatchInvariant`, `BatchSystem`, `BatchTheorems`, `BatchVerdicts`). Any number
  of batches run at once. Each has a producer, N workers, a results channel of capacity N, a
  closer and a collector; all batches share one global limiter and one limiter per test type.
  Every channel operation, limiter operation, cancellation and return is one step, so a run
  is one interleaving of the goroutines.
* **RakNet frames and fragments** (`Bytes`, `RakNetFrame`, `Reassembly`, `FragmentAssembler`). The
  parsers, the batch reassembler and the streaming assembler with its cleanup. The assembler is a class.
* **SOCKS5** (`Socks5Codec`, `Socks5Endpoints`, `Socks5Session`). Sections 3 to 7 of RFC 1928 and section
  2 of RFC 1929, client and server: first the procedures on readers and connections, then both
  ends composed over two byte pipes with every segmentation and interleaving.
* **Latency histories** (`LatencyHistory`, `LatencyRuns`). Two independent stores, both proved equal to one
  specification over the whole trace of samples.
* **Transfer packets and ping/pong** (`Transfer`, `PingPong`). The varint codec, the Transfer packet
  builder and parser, and the unconnected ping with its pong.
* **Plain UDP sessions** (`PlainUdp`). The shared client table with its listener and forwarders.
* **Load balancing and failover** (`LoadBalancer`, `Failover`). Round-robin and minimum selection, and the
  bounded and unbounded failover loops.
* **Active time** (`ActiveTime`). Connection counting on a runtime record that clones share.
* **Configuration managers** (`PortModel`, `PortTheorems`, `PortManager`, `OutboundModel`,
  `OutboundManager`). Each operation is a method over a map, equated with a function of the old map.
* **Access control** (`AclModel`, `AclCleanup`, `AclManager`). The two tables with their SQL statements, whole
  runs with and without cleanups, the decision by lookups and the decision by scanning whole lists.

`Options`, `Sets` and `DivMod` hold shared definitions and arithmetic.

Parameters stand for what the code gets from outside: GOMAXPROCS, clock readings, the outcome of a
dial, of a test, of a callback, of a save or of a database query, the selector of the outbound
manager, and string functions such as lower-casing and trimming.

## Where the code does less than one would expect

Each of these is proved, with the condition under which the code does what it promises.

* A frame's byte length is `(bits + 7) / 8` in 16 bits, which wraps to zero above 65528 bits
  (`RakNetFrame.ByteLengthExactIff`).
* The streaming assembler never compares an index with the count, so a stray index can complete
  a packet with a part missing (`FragmentAssembler.StrayIndexCompletes`); a completed packet has exactly the
  announced parts if and only if no index is at or above the count (`CompletesWholeIff`). The batch
  reassembler returns an empty packet when the first fragment announces no parts.
* A destination name longer than 255 bytes is written with a truncated length byte. The server
  then reads another destination and takes the rest of the name for relay data
  (`Socks5Codec.AddrRoundTripIff`, `Socks5Session.LongNameLeaks`, `Socks5Codec.EncapsulationRoundTripIff`).
* A pong is read back whole only for an MOTD of 1 to 1465 bytes (`PingPong.MotdRoundTripIff`).
* A Transfer address of 2^31 bytes or more does not survive its varint length
  (`Transfer.TransferRoundTripIff`).
* Validating a proxy port twice is not the same as validating it once: a negative candidate count becomes
  zero, and zero becomes ten. So saving and reloading is the identity exactly when
  no stored entry has a zero count (`PortTheorems.ReloadIsIdentityIff`).
* The attempt limit is 1 for the selector "@", which stands for all ungrouped outbounds, so the bounded
  failover loop gives up after one of them where the unbounded loop goes on (`Failover.UngroupedGivesUp`). A
  node pinned for a server can also come on top of the outbounds that were counted. These two cases
  are exactly where the limit is too small and the loops can disagree (`Failover.LimitCoversIff`, `LoopsAgreeIff`).
* A null element in the outbound file makes loading panic, exactly when everything before it is acceptable
  (`OutboundManager.ProxyOutboundConfigManager.Load`).
* An outbound update may rename over another entry (`OutboundModel.UpdateKeepsCountIff`).
* The tables' uniqueness constraint does not see rows without a server, so a second global ban can be
  missed by a lookup (`AclModel.SecondGlobalBanCanBeMissed`). Every lookup finds a new global ban exactly when
  every older row of the name matches too (`AclModel.GlobalBanFoundIff`).
* Lookups compare lower-case names and the check on an entry folds them, which differ for some letters. Lookups
  and scans agree exactly when the rows a lookup chooses from agree and no row is found by folding only
  (`AclModel.LookupIsScanIff`).
* An expired whitelist row refuses a new one until it is deleted (`AclCleanup.ExpiredRowBlocksListing`). A new
  listing takes effect exactly when no inactive row collides with it (`AclCleanup.ListingTakesEffectIff`), and
  cleanups are invisible to a run exactly when it never lists over an expired row
  (`AclCleanup.WhiteCleanupInvisibleIff`).
* The comment on `CheckAccessFull` says that database errors allow access. The function lets a player in on
  every error exactly when the player is not banned and no whitelist is enabled, neither by the settings in
  force nor by the global ones (`AclManager.FailsOpenIff`); only `CheckAccessWithError` turns every error
  into an allowance.

## Assumptions that appear as hypotheses

* Latency samples, opens and closes carry nondecreasing times. Retention and limit are fixed during a run; the
  coalescing gap may differ from call to call.
* A failover selector returns a candidate that is not excluded, or an error only when none is left
  (`Failover.Obeys`). Whether a node can be dialled does not change during one call.
* Where it is needed, folding one player's name with the names in a table is comparing them in lower case
  (`AclModel.FoldAgrees`). Lower-casing and trimming of port fields are idempotent together (`PortModel.Sane`).
* Additions to the whitelist and cleanups carry nondecreasing times (`AclCleanup.Chronological`).
* A SOCKS5 destination name fits its length byte (`Socks5Session.Usable`), which is shown to be necessary.

## Model

| member | source | states |
|---|---|---|
| BatchTheorems.TypeBudgetWithinGlobal | internal/api/proxy_outbound_handler.go:1298-1352 | for every GOMAXPROCS: 1 <= type budget <= global budget <= 256, a limiter holds exactly its budget, and no batch starts more workers than its type budget |
| BatchTheorems.BudgetTable | internal/api/proxy_outbound_handler.go:1298-1352 | the budgets at every number of processors, as a table |
| BatchTheorems.WorkersStarted | internal/api/proxy_outbound_handler.go:1418-1437 | a batch starts the requested number of workers, or as many as its budget and its names allow |
| BatchTheorems.RecordedAtMostOnce | internal/api/proxy_outbound_handler.go:1570-1663 | in every interleaving, cancellations included, no index is recorded twice and only indices of the request are |
| BatchTheorems.SuccessIsComplete | internal/api/proxy_outbound_handler.go:1641-1692 | a batch that returns without error has recorded every index exactly once, items[i] carries names[i], and Success + Failed = Total = len(names) with both counters describing the items |
| BatchVerdicts.VerdictsAreReported | internal/api/proxy_outbound_handler.go:1594-1692 | Success and Failed are the numbers of tests that returned those verdicts, and every item carries the verdict of the only test run for its index |
| BatchVerdicts.SucceedsIffAllRecorded | internal/api/proxy_outbound_handler.go:1657-1691 | a batch that is over succeeded iff its callback never failed and every name was recorded, cancelled or not |
| BatchTheorems.TokensMatchHolders | internal/api/proxy_outbound_handler.go:1367-1402 | in every reachable state each limiter channel holds one token per holder, and a worker offering its result holds none |
| BatchTheorems.ReleaseNeverDefaults | internal/api/proxy_outbound_handler.go:1379-1402 | a release always takes a token out; its default branch is never taken |
| BatchTheorems.RunningWithinBudgets | internal/api/proxy_outbound_handler.go:1389-1402 | over all batches the running tests never exceed the type budget nor the global one |
| BatchTheorems.NoDeadlock | internal/api/proxy_outbound_handler.go:1588-1692 | while some batch is unfinished some goroutine can step without any cancellation; a worker waiting for a permit never waits for nothing |
| BatchTheorems.EveryRunEnds | internal/api/proxy_outbound_handler.go:1588-1692 | once no new batch starts every interleaving ends within a bound computed from the state |
| BatchTheorems.QuietMeansDone | internal/api/proxy_outbound_handler.go:1588-1692 | when nothing can step, every batch has its verdict and exited workers, and every token is back |
| BatchTheorems.UninterruptedSucceeds | internal/api/proxy_outbound_handler.go:1570-1692 | a batch that nobody cancels and whose callback never fails can only end in a successful response, and has done so once nothing can step |
| BatchInvariant.ActInv | internal/api/proxy_outbound_handler.go:1588-1663 | every step conserves the handed-out indices: each is in one worker, in the results channel, recorded or dropped by a cancellation, exactly once |
| BatchInvariant.CollectIsFresh | internal/api/proxy_outbound_handler.go:1641-1643 | the collector never overwrites an entry of items |
| BatchSystem.StepInv | internal/api/proxy_outbound_handler.go:1367-1402 | every step of every goroutine keeps token counts equal to holders and within capacity |
| RakNetFrame.ParseFragment | internal/protocol/raknet.go:405-478 | the offset-advancing parser accepts and returns what the field layout says |
| RakNetFrame.ExtractInnerPacket | internal/protocol/protocol.go:438-506 | the inner-packet extractor skips exactly the reliability, ordering and split fields |
| RakNetFrame.ByteLengthExactIff | internal/protocol/raknet.go:405-478 | the 16-bit length is the rounded-up byte count if and only if it is at most 8191 bytes |
| RakNetFrame.SplitRoundTrip | internal/protocol/raknet.go:405-478 | a split frame of at most 8191 bytes, built from the message, sequencing and ordering indices its reliability calls for, is parsed back field by field, whatever follows it |
| RakNetFrame.InnerRoundTrip | internal/protocol/protocol.go:438-506 | the payload of an unsplit frame built from those indices is extracted exactly; a datagram that ends with its header is too short |
| RakNetFrame.InnerOfSplit | internal/protocol/protocol.go:491-505 | the split information of a split frame is stepped over |
| RakNetFrame.CutSplitFrame | internal/protocol/raknet.go:430-478 | a split frame cut off inside its header is too short, after it the fragment keeps what is left |
| RakNetFrame.CutPlainFrame | internal/protocol/protocol.go:467-505 | the same for an unsplit frame |
| RakNetFrame.NotAFragment | internal/protocol/raknet.go:410-428 | packets of other types and frames without the split flag are invalid fragments |
| RakNetFrame.SplitFrameBytes | internal/protocol/protocol.go:448-455 | every byte of a split frame |
| RakNetFrame.KnownFragment | internal/protocol/raknet.go:405-478 | one reliable ordered split frame, byte by byte |
| Reassembly.ReassembleFragments | internal/protocol/raknet.go:346-402 | the loops with sorting and the missing-fragment check compute the specified join or error |
| Reassembly.SucceedsIffAllPresent | internal/protocol/raknet.go:346-402 | on any packets reassembly succeeds iff every index below the first parsed fragment's count occurs under its split ID; otherwise ErrFragmentMissing |
| Reassembly.BatchReassembly | internal/protocol/raknet.go:346-478 | after packets that are rejected comes a chunk frame, then chunks in any order, repeated, with rejected and foreign packets anywhere: the payload if all arrived, else ErrFragmentMissing, never another packet |
| Reassembly.NothingParses | internal/protocol/raknet.go:346-366 | when every packet is rejected there is no valid fragment and no packet |
| Reassembly.WriteInOrder | internal/protocol/raknet.go:385-401 | writing the fragments by sorted index yields their join in index order |
| Reassembly.ZeroCountIsEmptyPacket | internal/protocol/raknet.go:346-402 | a first fragment announcing zero parts yields an empty packet |
| Reassembly.LastFragmentWins | internal/protocol/raknet.go:366-379 | of several fragments with the same index the last one is used |
| FragmentAssembler.Assembler.AddFragment | internal/protocol/raknet.go:481-516 | updates the nested map in place as specified and returns the packet exactly on completion |
| FragmentAssembler.Assembler.Cleanup | internal/protocol/raknet.go:519-532 | deletes exactly the groups that hold a fragment older than the timeout |
| FragmentAssembler.AddCompletesExactly | internal/protocol/raknet.go:481-516 | completes exactly when the last missing index arrives, returns that message, and leaves other groups untouched |
| FragmentAssembler.StoredGroupsArePartial | internal/protocol/raknet.go:481-532 | after any stream with cleanups every stored group is a nonempty proper subset of its index range |
| FragmentAssembler.OutputsAreMessages | internal/protocol/raknet.go:481-532 | every packet a run returns is the whole message of the fragment that completed it |
| FragmentAssembler.EveryMessageIsReturned | internal/protocol/raknet.go:481-516 | without cleanups a message whose chunks all arrived, in any interleaving, was returned |
| FragmentAssembler.SweepKeepsGroups | internal/protocol/raknet.go:519-532 | a cleanup drops whole groups only and keeps the others as they were |
| FragmentAssembler.CompletesWholeIff | internal/protocol/raknet.go:481-516 | on any fragments, a completed packet consists of exactly the indices below the announced count iff no stored or arriving index is at or above it |
| FragmentAssembler.CompletesMessage | internal/protocol/raknet.go:481-516 | a completed packet whose fragments carry the chunks of one message at indices below its count is that message |
| FragmentAssembler.StrayIndexCompletes | internal/protocol/raknet.go:481-516 | a concrete stray index completes a two-part message |
| Socks5Codec.ReadSocksaddr | internal/proxy/socks_http_dialer.go:115-155 | the reader-based decoder accepts and consumes what the address grammar says |
| Socks5Codec.ReadSocks5Request | internal/proxy/proxy_ports.go:547-599 | the server's request reader accepts CONNECT requests with the same address grammar |
| Socks5Codec.DecodersAgree | internal/proxy/socks_http_dialer.go:366-393 | socks5UDPHeaderLen, readSocksaddr and the request reader accept the same inputs and consume the same length |
| Socks5Codec.ParseAddrExtends | internal/proxy/socks_http_dialer.go:115-155 | what is decoded from a prefix is decoded from the whole stream: segmentation does not matter |
| Socks5Codec.AddrRoundTripIff | internal/proxy/singbox_factory.go:2447-2463 | decoding inverts encoding with nothing left over iff the name has at most 255 bytes |
| Socks5Codec.AddressBytes | internal/proxy/singbox_factory.go:2447-2463 | every byte of an encoded address |
| Socks5Codec.UnknownTypeRefused | internal/proxy/socks_http_dialer.go:146-148 | any other address type is refused by every decoder |
| Socks5Codec.OnlyConnect | internal/proxy/proxy_ports.go:547-563 | only version 5 and command CONNECT are accepted as a request |
| Socks5Codec.ReadFrom | internal/proxy/socks_http_dialer.go:340-364 | skips fragmented and malformed datagrams and copies the first payload into the caller's buffer |
| Socks5Codec.NothingTruncated | internal/proxy/socks_http_dialer.go:340-364 | with 512 spare bytes no payload that fits the caller's buffer is truncated |
| Socks5Codec.LongPayloadIsCut | internal/proxy/socks_http_dialer.go:340-361 | a payload longer than the caller's buffer is cut to it |
| Socks5Codec.SkippedDatagrams | internal/proxy/socks_http_dialer.go:347-357 | datagrams that are too short, fragmented or of unknown type are skipped |
| Socks5Codec.ReservedBytes | internal/proxy/socks_http_dialer.go:350-358 | the two reserved bytes are not looked at |
| Socks5Codec.EncapsulationRoundTripIff | internal/proxy/socks_http_dialer.go:328-364 | ReadFrom undoes WriteTo iff the destination name fits its length byte |
| Socks5Endpoints.HandleSocks5 | internal/proxy/proxy_ports.go:453-474 | what the server writes, dials and leaves for the relay on every input; any other version or command is answered with reply 1 and nothing is dialled |
| Socks5Endpoints.HandleHandshake | internal/proxy/proxy_ports.go:476-514 | method selection and its answers, consuming exactly the greeting |
| Socks5Endpoints.HandleAuth | internal/proxy/proxy_ports.go:516-545 | the username/password exchange, consuming exactly its message |
| Socks5Endpoints.GreetingAnswers | internal/proxy/proxy_ports.go:485-513 | the bytes a server answers to a greeting, with and without credentials of its own |
| Socks5Endpoints.AuthAnswers | internal/proxy/proxy_ports.go:516-545 | the bytes it answers to credentials: both must be its own |
| Socks5Endpoints.Negotiate | internal/proxy/socks_http_dialer.go:35-67 | the client's negotiation: bytes written, verdict, and exactly the server's answers consumed |
| Socks5Endpoints.UserPassAuth | internal/proxy/socks_http_dialer.go:69-92 | refuses credentials that do not fit before writing; otherwise succeeds on status zero only |
| Socks5Endpoints.SendRequest | internal/proxy/socks_http_dialer.go:94-113 | writes one CONNECT request and succeeds exactly on a complete success reply |
| Socks5Endpoints.ClientBytes | internal/proxy/socks_http_dialer.go:35-99 | the bytes of the client's greeting, credentials and request |
| Socks5Endpoints.ClientReactions | internal/proxy/socks_http_dialer.go:46-90 | what the client makes of a method selection and of an authentication status |
| Socks5Session.ProcedureIsTurns | internal/proxy/proxy_ports.go:453-545 | the server procedure and the message-by-message server of the composition do the same on every input |
| Socks5Session.DialSocks5 | internal/proxy/socks_http_dialer.go:158-185 | the client procedures called by a dial and the message-by-message client of the composition write, consume and decide the same on every input |
| Socks5Session.VerdictIsRight | internal/proxy/socks_http_dialer.go:35-113 | in every run the client connects only if admitted and fails only if not; the server dials nothing but the client's destination, at most once |
| Socks5Session.ConnectsIffAdmitted | internal/proxy/proxy_ports.go:453-545 | the handshake ends, and then the client is connected iff the dial succeeds and either no auth is required or its credentials match |
| Socks5Session.AdmittedMeans | internal/proxy/proxy_ports.go:804-806 | who is admitted, said of the four credential strings and the dial |
| Socks5Session.RelayIsTransparent | internal/proxy/proxy_ports.go:453-474 | no handshake byte leaks into the relay, in either direction |
| Socks5Session.NeverStalls | internal/proxy/socks_http_dialer.go:35-113 | until the client has a verdict some handshake step is possible |
| Socks5Session.LongNameLeaks | internal/proxy/socks_http_dialer.go:94-113 | the server reads the client's destination iff its name fits; otherwise at least 256 request bytes are left for the relay |
| LatencyHistory.OutboundLatencyHistory.Append | internal/proxy/outbound_latency_history.go:27-46 | filter, replace or append, and cap, as specified for one series |
| LatencyHistory.OutboundLatencyHistory.Compact | internal/proxy/outbound_latency_history.go:62-73 | forgets exactly the expired samples and says whether none is left |
| LatencyHistory.ServerLatencyHistoryStore.Record | internal/api/server_latency_history.go:91-126 | trims the ID and updates one series, whose newest sample is then the given one with a missing time and a negative latency repaired; every other series is left alone |
| LatencyHistory.EffectiveGap | internal/api/server_latency_history.go:81-89 | an override only shortens the configured gap, unless none is configured |
| LatencyHistory.ServerLatencyHistoryStore.Snapshot | internal/api/server_latency_history.go:128-150 | for each trimmed nonempty ID the live samples, the last ones within the clamped limit |
| LatencyHistory.ClampLimit | internal/api/server_latency_history.go:192-206 | at least one, at most a positive maximum, and the requested number when that is within bounds |
| LatencyHistory.KnownLimits | internal/api/server_latency_history.go:192-206 | the default of 100 and the clamping at particular values |
| LatencyHistory.ServerLatencyHistoryStore.History | internal/api/server_latency_history.go:152-169 | returns the live samples of the trimmed ID |
| LatencyHistory.RecordRefinesBatch | internal/api/server_latency_history.go:91-126 | one more sample takes both stores from the batch result of a trace to that of the longer trace |
| LatencyHistory.CoalescedAppend | internal/api/server_latency_history.go:114-120 | one more sample replaces the last one iff it comes before the gap is over |
| LatencyHistory.FreshIff | internal/proxy/outbound_latency_history.go:48-60 | a sample is kept exactly from the cutoff on |
| LatencyHistory.LastNIs | internal/proxy/outbound_latency_history.go:40-45 | the cap keeps the newest samples, as many as it allows |
| LatencyRuns.StoresEqualBatch | internal/proxy/outbound_latency_history.go:27-73 | after every run, reads included, both stores equal the batch specification over the whole trace |
| LatencyRuns.StoresAgree | internal/api/server_latency_history.go:91-190 | the two independent stores hold the same samples after the same calls |
| LatencyRuns.ReadsLeaveNoTrace | internal/api/server_latency_history.go:128-190 | interleaved reads never change later results |
| LatencyRuns.WithinLimits | internal/api/server_latency_history.go:91-190 | never more samples than the limit and none older than the retention |
| LatencyRuns.KeysAreIndependent | internal/api/server_latency_history.go:91-190 | a server's series is what its own calls alone produce |
| Transfer.WriteVarInt | internal/protocol/protocol.go:578-593 | the loop writes the seven-bit groups of the unsigned value |
| Transfer.ReadVarInt | internal/protocol/protocol.go:595-625 | the loop reads groups up to five bytes, with 32-bit truncation |
| Transfer.VarIntRoundTrip | internal/protocol/protocol.go:578-625 | reading inverts writing for every int32 at any offset with any trailing bytes |
| Transfer.VarBytesAt | internal/protocol/protocol.go:578-593 | byte k of a varint holds bits 7k to 7k + 6, and its high bit says whether another follows |
| Transfer.UnendedVarInt | internal/protocol/protocol.go:595-624 | a varint without an end within five bytes is invalid, one that the packet cuts off is too short |
| Transfer.KnownVarInts | internal/protocol/protocol.go:578-593 | the bytes of 300 and of -1 |
| Transfer.ParseTransferPacket | internal/protocol/protocol.go:658-729 | the offset-advancing parser on every input, including its error cases |
| Transfer.TransferRoundTripIff | internal/protocol/protocol.go:658-749 | parsing inverts building iff the address length fits an int32 |
| Transfer.FramedTransferRoundTrip | internal/protocol/protocol.go:438-749 | the same inside an unsplit frame of at most 8191 bytes at any reliability, which is recognised as a Transfer packet |
| Transfer.BuiltIsTransfer | internal/protocol/protocol.go:627-655 | every built packet is recognised |
| Transfer.PacketBytes | internal/protocol/protocol.go:732-749 | every byte of a built packet with a short address |
| Transfer.BareTransferIff | internal/protocol/protocol.go:627-729 | a bare packet is a Transfer packet iff its ID byte is 0x55; the parser refuses the others |
| Transfer.FramedTransferIff | internal/protocol/protocol.go:639-697 | the same for the packet inside a frame |
| PingPong.BuildRakNetPing | internal/api/proxy_outbound_handler.go:3362-3382 | the ping's bytes, with the timestamp shifted out byte by byte |
| PingPong.PingIsAnswered | internal/protocol/raknet.go:87-149 | every built ping is accepted and answered with its own timestamp |
| PingPong.AnsweredIff | internal/protocol/raknet.go:87-106 | exactly which datagrams are answered, by length, type and magic |
| PingPong.AnswerEchoesTimestamp | internal/protocol/raknet.go:108-112 | the answer repeats the eight timestamp bytes it was given |
| PingPong.PongBytes | internal/protocol/raknet.go:115-149 | every field of a pong, the server GUID included |
| PingPong.PingBytes | internal/api/proxy_outbound_handler.go:3362-3382 | every byte of a ping |
| PingPong.MotdRoundTripIff | internal/api/proxy_outbound_handler.go:2782-2860 | after any number of stale pongs the client reads back exactly the MOTD, iff it has 1 to 1465 bytes |
| PingPong.SkippedIff | internal/api/proxy_outbound_handler.go:2821-2857 | only a pong with another timestamp is skipped; any other datagram ends the wait |
| PlainUdp.StepInv | internal/proxy/plain_udp_proxy.go:161-334 | in every interleaving each session is in the table, about to be closed, or closed: exactly one of these |
| PlainUdp.ClosedAtMostOnce | internal/proxy/plain_udp_proxy.go:322-334 | each target connection is closed at most once and every mapped session is open |
| PlainUdp.ClosedInTheEnd | internal/proxy/plain_udp_proxy.go:255-334 | once its forwarder is gone and the listener idle, a connection has been closed exactly once |
| PlainUdp.SuccessorSurvives | internal/proxy/plain_udp_proxy.go:255-334 | an old session's exit never removes or closes the successor under the same address |
| PlainUdp.OneSessionPerAddress | internal/proxy/plain_udp_proxy.go:161-186 | a live address never gets a second session |
| PlainUdp.ReceiveFindsSession | internal/proxy/plain_udp_proxy.go:161-171 | in every reachable state a datagram from a mapped address goes to its own session, any other one is dialled for |
| PlainUdp.StoreOpensSession | internal/proxy/plain_udp_proxy.go:173-185 | a new session is open, under the dialled address, the one written to, and leaves the others as they were |
| PlainUdp.WritesToOwnSession | internal/proxy/plain_udp_proxy.go:111-126 | over every run the listener writes to, drops and closes only sessions of the address whose datagram it last received |
| LoadBalancer.SelectLeastLatency | internal/proxy/load_balancer.go:61-101 | the fastest node with a known latency, or the first when none is known |
| LoadBalancer.SelectLeastConnections | internal/proxy/load_balancer.go:140-159 | the first node with the fewest connections |
| LoadBalancer.Balancer.Select | internal/proxy/load_balancer.go:34-57 | what each strategy returns, by the latency that is asked for, the counts or the random draw, and which index changes |
| LoadBalancer.RoundRobinCycles | internal/proxy/load_balancer.go:103-126 | the i-th pick for a key is (s + i) mod n, where s is the stored index or zero when it is missing or stale, whatever other keys do |
| LoadBalancer.RoundRobinIsFair | internal/proxy/load_balancer.go:103-126 | over any window the counts of two positions differ by at most one |
| LoadBalancer.KeysDoNotInterfere | internal/proxy/load_balancer.go:103-126 | selections and resets of other keys leave a key's picks as they are |
| Failover.ProxyDialer.DialWithLoadBalancing | internal/proxy/proxy_dialer.go:186-306 | the unbounded loop with its cancellation checks, its excluded nodes and its selected node |
| Failover.CancelOnlyStopsEarly | internal/proxy/proxy_dialer.go:250-278 | a cancellation ends the loop after a part of the same failures, without a connection, and changes nothing else |
| Failover.StopsAtFirstCancel | internal/proxy/proxy_dialer.go:250-278 | the loop ends at the first failure after which the context is cancelled, and only then counts as cancelled |
| Failover.DialOutbound | internal/proxy/proxy_ports.go:704-750 | the attempt-bounded loop and its exclusions |
| Failover.UnboundedConnectsIff | internal/proxy/proxy_dialer.go:186-306 | ends, tries each candidate at most once, and connects iff some candidate can be dialled |
| Failover.BoundedConnectsIff | internal/proxy/plain_tcp_proxy.go:129-172 | connects iff the unbounded loop does after fewer failures than the bound, and then to the same node |
| Failover.BoundedIsSound | internal/proxy/plain_tcp_proxy.go:129-172 | the bounded loop tries no candidate twice, also when the bound cuts it off |
| Failover.SameVerdict | internal/proxy/plain_tcp_proxy.go:129-172 | when the bound covers the candidates both loops agree |
| Failover.LimitCoversIff | internal/proxy/proxy_dialer.go:160-180 | the attempt limit covers the candidates iff they are not several ungrouped outbounds and no pinned node comes on top of distinct outbounds that are all offered |
| Failover.LoopsAgreeIff | internal/proxy/proxy_dialer.go:160-306 | whatever the selector, the bounded and unbounded loops agree for every dial outcome iff the limit is not too small in that sense |
| Failover.UngroupedGivesUp | internal/proxy/proxy_dialer.go:170-179 | with two ungrouped outbounds, the first undiallable, the bounded loop gives up and the unbounded one connects |
| ActiveTime.ProxyOutbound.IncrConnCount | internal/config/proxy_outbound.go:438-449 | a first connection starts the clock on the shared record |
| ActiveTime.ProxyOutbound.DecrConnCount | internal/config/proxy_outbound.go:451-464 | the last close adds the elapsed time; closing with none open does nothing |
| ActiveTime.RunThrough | internal/config/proxy_outbound.go:277-338 | holders that are clones of each other drive one record: who opens or closes does not matter |
| ActiveTime.CountIsOpen | internal/config/proxy_outbound.go:438-464 | the count is the number of open connections, never negative, and the start time is set iff it is positive |
| ActiveTime.DurationIsBusyTime | internal/config/proxy_outbound.go:579-588 | the reported duration is the total time during which some connection was open |
| ActiveTime.LastActiveIsLastUse | internal/config/proxy_outbound.go:438-464 | the last-active time is that of the last open, or of the last close that closed something |
| PortModel.RunConsistent | internal/config/proxy_port_manager.go:36-248 | in every reachable state each key is its entry's ID and normalised listen addresses are pairwise distinct |
| PortModel.ReachableAddressesDiffer | internal/config/proxy_port_manager.go:133-163 | in every reachable state the trimmed and lower-cased addresses of two entries differ |
| PortModel.AcceptedIff | internal/config/proxy_port.go:92-145 | exactly which entries are accepted |
| PortModel.AcceptedEntry | internal/config/proxy_port.go:62-89 | what an accepted entry is stored as, field by field |
| PortModel.AddedIff | internal/config/proxy_port_manager.go:137-180 | exactly when an entry is added |
| PortModel.UpdatedIff | internal/config/proxy_port_manager.go:137-237 | exactly when an entry is replaced |
| PortModel.LoadSkipsNil | internal/config/proxy_port_manager.go:56-59 | reading a file skips nil entries wherever they are |
| PortModel.EdgeCases | internal/config/proxy_port_manager.go:36-214 | a missing file is empty, an unreadable one changes nothing, an empty batch and a batch with a nil entry are refused |
| PortModel.SecondValidation | internal/config/proxy_port.go:62-145 | validating a validated entry accepts it and returns it unchanged iff its candidate count is not zero |
| PortModel.ZeroComesFromNegative | internal/config/proxy_port.go:77-82 | a zero candidate count is stored exactly for negative inputs |
| PortManager.ProxyPortConfigManager.Load | internal/config/proxy_port_manager.go:36-76 | replaces the map by the whole file, or leaves it unchanged |
| PortManager.ProxyPortConfigManager.EnsurePortUnique | internal/config/proxy_port_manager.go:137-163 | accepts iff the ID is free or its own and the address is free among stored and staged entries |
| PortManager.ProxyPortConfigManager.AddPort | internal/config/proxy_port_manager.go:166-180 | adds one entry or leaves the map unchanged, rewrites the caller's object with the defaults either way; a failed save comes after the change |
| PortManager.ProxyPortConfigManager.AddPorts | internal/config/proxy_port_manager.go:182-214 | adds the whole batch or leaves the map unchanged |
| PortManager.ProxyPortConfigManager.UpdatePort | internal/config/proxy_port_manager.go:217-237 | replaces one entry, renaming included, or leaves the map unchanged, and rewrites the caller's object with the defaults |
| PortManager.ProxyPortConfigManager.Save | internal/config/proxy_port_manager.go:85-98 | lists every stored entry exactly once |
| PortTheorems.BatchIsSequence | internal/config/proxy_port_manager.go:166-214 | AddPorts accepts a list iff AddPort would accept its entries one after another, with the same result |
| PortTheorems.BatchIsWhole | internal/config/proxy_port_manager.go:182-214 | an accepted batch is stored whole under new IDs and nothing else changes |
| PortTheorems.ReloadIsIdentityIff | internal/config/proxy_port_manager.go:36-98 | in every reachable state saving and reloading gives the same ports iff no entry has a zero candidate count |
| PortTheorems.UpdateUndoesUpdate | internal/config/proxy_port_manager.go:217-237 | an accepted update is taken back by updating to the old entry, which is revalidated |
| PortTheorems.DeleteUndoesAdd | internal/config/proxy_port_manager.go:166-248 | deleting what was just added restores the ports |
| OutboundManager.ProxyOutboundConfigManager.Load | internal/config/proxy_outbound_manager.go:35-74 | replaces the map by the whole file, or leaves it unchanged, and panics exactly at a null element after acceptable ones |
| OutboundManager.ProxyOutboundConfigManager.ReplaceSubscriptionOutbounds | internal/config/proxy_outbound_manager.go:177-225 | replaces one subscription's entries, or leaves the map unchanged |
| OutboundManager.ProxyOutboundConfigManager.UpdateOutbound | internal/config/proxy_outbound_manager.go:245-263 | replaces one entry, renaming included, or leaves the map unchanged |
| OutboundModel.RunKeyed | internal/config/proxy_outbound_manager.go:35-291 | in every reachable state each key is its entry's name and every entry is valid |
| OutboundModel.AddedIff | internal/config/proxy_outbound.go:130-142 | exactly when an outbound is added, port range included |
| OutboundModel.UpdatedIff | internal/config/proxy_outbound_manager.go:245-263 | exactly when an outbound is replaced, and what else stays |
| OutboundModel.ReplaceAccepts | internal/config/proxy_outbound_manager.go:177-199 | an accepted replacement has an identifier, no nil, no foreign, no invalid and no repeated entry |
| OutboundModel.ReplaceIsExact | internal/config/proxy_outbound_manager.go:177-225 | an accepted replacement is the only map with the other subscriptions' entries unchanged and exactly the given entries for this one |
| OutboundModel.AcceptedIffPossible | internal/config/proxy_outbound_manager.go:201-225 | a list that passes its own checks is accepted iff such a map exists |
| OutboundModel.LastReplaceWins | internal/config/proxy_outbound_manager.go:177-225 | replacing twice is replacing with the last list |
| OutboundModel.ReplacesCommute | internal/config/proxy_outbound_manager.go:177-225 | replacing two subscriptions gives the same map in either order |
| OutboundModel.ReplaceWithOwnIsIdentity | internal/config/proxy_outbound_manager.go:163-225 | replacing a subscription by its own entries changes nothing |
| OutboundModel.LoadAfterSave | internal/config/proxy_outbound_manager.go:35-101 | a saved file loads back with the same configuration under every name |
| OutboundModel.UpdateKeepsCountIff | internal/config/proxy_outbound_manager.go:245-263 | an update keeps the number of entries iff the new name was free or its own |
| AclManager.CheckAccessWithEntries | internal/acl/acl_manager.go:472-532 | on complete lists: allowed iff no ban counts and no listing is missing, with the reason of the first matching ban or the whitelist message |
| AclManager.ACLManager.CheckAccessFull | internal/acl/acl_manager.go:173-311 | with lookups that answer like scans: denied for a ban iff the settings in force use the blacklist and a row matches, else for the whitelist iff it is in use and no row matches; the message; and verdict and error flag under any faults |
| AclManager.VerdictMeans | internal/acl/acl_manager.go:181-310 | who is denied and why, said of the rows and of the settings in force: the server's own, else the global ones, else the defaults |
| AclManager.ReportedErrors | internal/acl/acl_manager.go:184-296 | failed lookups that are made are reported, and those of lists not in use are not |
| AclManager.BothDecisions | internal/acl/acl_manager.go:173-311 | without faults CheckAccessFull and CheckAccessWithEntries on the full tables allow the same players whenever lookups answer like scans |
| AclManager.ReachableLookupsAgree | internal/acl/acl_manager.go:173-311 | they do in all reachable tables with one global row per name in which folding the name is comparing in lower case |
| AclManager.ACLManager.CheckAccessWithError | internal/acl/acl_manager.go:157-164 | denies only decisions taken without error, and those are the faultless ones |
| AclManager.NoErrorMeansRight | internal/acl/acl_manager.go:173-311 | a decision reported without error is the faultless decision |
| AclManager.FailsOpenIff | internal/acl/acl_manager.go:166-311 | every database error allows access iff the player is not banned and no whitelist is enabled by the settings in force or the global ones |
| AclManager.BanIsFoundOnError | internal/acl/acl_manager.go:180-246 | with unreadable settings a ban is still found and denied |
| AclManager.ACLManager.CleanupExpiredEntriesIfDue | internal/acl/acl_manager.go:51-64 | at most once a minute both tables lose their expired rows, which changes no answer at that time or later |
| AclModel.RunProper | internal/db/blacklist_repository.go:23-64 | in every reachable table lower-case names are right and a server has at most one row per name |
| AclModel.MatchesIff | internal/acl/acl_manager.go:443-454 | an entry counts while it is enabled, up to and including its last instant, for names equal under folding |
| AclModel.ScopeIff | internal/db/blacklist_repository.go:72-76 | which server a row belongs to |
| AclModel.ServerBanMeans | internal/db/blacklist_repository.go:23-64 | banning a name on a server leaves it one row there with what was given, and touches no other row |
| AclModel.GlobalBanMeans | internal/db/blacklist_repository.go:35-52 | a global ban is always a new row |
| AclModel.ListingMeans | internal/db/whitelist_repository.go:22-57 | a listing is a new row unless a row of the same server and name refuses it |
| AclModel.EnableMeans | internal/db/blacklist_repository.go:83-108 | enabling a name for a server changes all its rows there and nothing else |
| AclModel.DropMeans | internal/db/blacklist_repository.go:111-136 | dropping a name for a server leaves no such row and every other one |
| AclModel.LookupIsScanIff | internal/db/blacklist_repository.go:68-81 | for any folding and lower-casing, every answer of a lookup agrees with scanning iff the rows it chooses from agree and no row matches by folding only |
| AclModel.UniqueGlobalsSuffice | internal/db/db.go:103-132 | in every reachable table with one global row for the name, lookups and scans part exactly where a row is found by folding only |
| AclModel.GlobalAddKeepsUniqueIff | internal/db/blacklist_repository.go:35-41 | adding a global entry keeps the name unique iff it was absent |
| AclModel.GlobalBanFoundIff | internal/db/blacklist_repository.go:23-81 | every lookup finds a new global ban iff every older row of the name matches too |
| AclModel.SecondGlobalBanCanBeMissed | internal/db/blacklist_repository.go:35-81 | a ban added over a disabled global one is seen by a scan and may be missed by a lookup |
| AclModel.SweepKeepsScan | internal/db/blacklist_repository.go:174-191 | deleting expired rows changes no scan at that time or later |
| AclCleanup.CleanupIsInvisible | internal/db/blacklist_repository.go:23-191 | over whole runs the blacklist answers as if no expired row had ever been deleted |
| AclCleanup.ListingTakesEffectIff | internal/db/whitelist_repository.go:22-57 | in every proper table a new listing takes effect iff the row it collides with, if any, is active anyway |
| AclCleanup.WhiteCleanupIsInvisible | internal/db/whitelist_repository.go:22-183 | in a run that never lists over an expired row every listing is admitted and every later scan answers as without cleanups |
| AclCleanup.WhiteCleanupInvisibleIff | internal/db/whitelist_repository.go:22-183 | all timely placements of cleanups in a run are invisible iff it never lists over an expired row |
| AclCleanup.ExpiredRowBlocksListing | internal/db/whitelist_repository.go:22-57 | an expired whitelist row of a server refuses a new one until it is deleted |

## Left out

- HTTP handlers, the web interface, metrics, logging, file watching and the bytes of configuration files: input and output.
- Foreign libraries: sing-box, go-raknet, gophertunnel, TLS, DNS, compression and JSON are not part of this model.
- The body of SelectOutboundWithFailoverForServer: used only through the contract `Failover.Obeys`.
- Batch timing fields and the per-item timeout: they do not influence which items are recorded.
- The test types' own execution: an item is its name and a success flag.
- Mixed-type proxy ports: peeking at four bytes can wait on a three-byte greeting, so the composition covers the socks5 type.
- SOCKS4 and HTTP CONNECT, connection deadlines, resets and the relay's teardown.
- Text forms of IP addresses: a host is four bytes, sixteen bytes or a name.
- PlainUDPProxy.Stop: it closes without compare-and-delete, so runs are taken before it.
- The UDP listener's pong cache and buffer pool, whose two writers store different things.
- Splitting the MOTD into its fields.
- Totality of packet parsers in Go: a negative slice bound is modelled as an error value.
- Deleting a server's history, and the map of histories inside the outbound manager: single map operations.
- OutboundManager.ProxyOutboundConfigManager.UpdateOutbound: protocol-specific validation is a parameter, and runtime updates without saving are left out.
- AclManager.CheckAccessWithEntries: one clock reading is used for all entries, where the code reads the clock for each entry.
- Changing retention, limits or coalescing gap of a history through a configuration reload during a run.
- Aliasing of Go slices and maps returned to callers: every getter returns a clone.
