# Glycerine: a verification model

Glycerine gives an AWS Nitro Enclave a network: IPv4 packets are taken from netfilter
queues, carried over vsock streams and put on the wire on the other side. This project
models its four cores in Dafny and proves what they are meant to guarantee.

- **Forwarding.** `SenderProtocol` and `ReceiverProtocol` say which events each worker may
  produce next; a log of events is possible if `After` accepts it. `NfqToVsock` and
  `VsockToIpv4` are the loops of the source over an environment whose every answer is
  arbitrary (short sends and reads, failures, end of stream, shutdown at any poll), and they
  are proved to produce such logs only. In each phase the protocol allows one kind of call,
  so an accepted log fixes what the loops do as a function of the answers. `SenderHistory`
  and `ReceiverHistory` tell the same protocols without a state, by the last events of a log,
  and are proved equivalent. `Forwarding` interleaves both sides over a sequence of
  connections and proves safety over all runs; `Delivery` shows that complete delivery is
  possible for every list of packets, and `Recovery` that it stays so after any failures.
- **The virtio vsock deadlock.** `VirtioVsock` is the system of two drivers back to back, with
  the pushback (as before the shipped kernel patch) or without it (as after). `VirtioProgress`
  proves where runs end; `VirtioDriver` has the patched functions in place, as runs of steps.
- **Bootstrap.** `Bootstrap` has the two transfer loops, `RecordJson` and `RecordCanon` the
  record's text.
- **Steering and rendering.** `Parsers`, `Netfilter` and `Steering` go from the command line
  to captured packets; `Dump` is the trace decoder.

`Wrappers`, `Octets`, `Ports`, `Decimal`, `Ipv4` and `Runtime` hold what these share. Check
everything with `dafny verify dfyconfig.toml`.

## Assumptions

- Queue payloads are well-formed IPv4 packets whose total length is their own length, since
  the chains that fill the queue are of the IPv4 family
  (crates/glycerine/src/system/netfilter.rs:67). Only `Forwarding`, `Delivery` and `Recovery` use this.
- A vsock connection delivers a prefix of what was written to it, and the receiver gets
  connections in the order in which they were opened, possibly not all of them.
- The shutdown token is a number of polls after which it is found set; it is arbitrary, so
  shutdown may come at any poll, and stays. Every loop of the model therefore ends.
- In the two-driver system each round of a driver loop is one atomic step; receiving a packet
  that is not a reply makes at most one reply, receiving a reply makes none, and replies have
  no other origin; the purge counts the replies that it drops.
- nftables compares registers bytewise; an interface name compares equal exactly to itself.
- Text is a string with one character per octet of its UTF-8 form.

## Where code and documentation differ

- The error for a large record says that it exceeds the maximum; a record of exactly 2^20
  bytes is refused as well. The model has the bound of the code.
- The options are documented not to overlap with each other. The check misses an enclave
  range that strictly encloses the host's, and never compares service ports with the
  enclave's ephemeral ports. `Steering.DocumentedExactly` says exactly what is accepted.

## Model

| member | source | states |
|---|---|---|
| Ipv4.DeframePartitions | crates/glycerine/src/proxy/worker/ipv4.rs:134-179 | cutting any byte stream by IPv4 headers loses no byte, yields well-formed packets only, and stops only where no whole packet is left |
| Ipv4.DeframeFlatten | crates/glycerine/src/proxy/worker/ipv4.rs:218-237 | cutting a concatenation of well-formed packets, followed by anything, gives back those packets: IPv4 packets frame themselves |
| Ipv4.WellFormedExactly | crates/glycerine/src/proxy/worker/ipv4.rs:218-237 | what the header check accepts, at its full length, is exactly what has the layout of section 3.1 of RFC 791 with version 4 and the true lengths |
| SenderProtocol.StreamsAlways | crates/glycerine/src/proxy/worker/nfq.rs:67-160 | in every log, what a connection has taken is the packets popped for it, whole and in order; only a connection given up after a send failure ends in a proper prefix of the last of them, while a queue error, a failed verdict included, leaves the stream aligned |
| SenderProtocol.ClosedStaysClosed | crates/glycerine/src/proxy/worker/nfq.rs:79 | a connection on which a send failed keeps its bytes for ever: it is never written again, however the log goes on |
| SenderProtocol.AccountsAlways | crates/glycerine/src/proxy/worker/nfq.rs:95-160 | as multisets and in number, popped = judged + send failures + the one in hand, and the failed messages are the last ones of the connections given up |
| SenderProtocol.CallsUseNewest | crates/glycerine/src/proxy/worker/nfq.rs:67-84 | every receive, send and verdict is made on the queue or connection opened last |
| SenderProtocol.VerdictAfterSending | crates/glycerine/src/proxy/worker/nfq.rs:120-159 | every verdict is to drop, and comes when the connection holds whole packets the last of which is the message judged |
| SenderHistory.FollowsExactly | crates/glycerine/src/proxy/worker/nfq.rs:67-160 | which event can come next is told, for every log, by its last events, the resources opened last and the bytes of the last message not yet sent: both directions |
| SenderHistory.OverflowGoesOn | crates/glycerine/src/proxy/worker/nfq.rs:97-105 | after an overflow the next event is a poll, with the queue and the connection as before |
| SenderHistory.QueueReopenedAfterFailure | crates/glycerine/src/proxy/worker/nfq.rs:73-77 | a queue is opened only at the start or directly after a failed receive or verdict |
| SenderHistory.CollectedAlways | crates/glycerine/src/proxy/worker/nfq.rs:95-160 | the messages popped and judged, and the bytes on the newest connection, are those of the events in the log |
| NfqToVsock.NfqToVsock.Run | crates/glycerine/src/proxy/worker/nfq.rs:41-87 | whatever the environment answers, `run` makes only calls that the protocol allows next, ends cleanly exactly on shutdown, and otherwise only when a resource cannot be opened |
| NfqToVsock.NfqToVsock.Start | crates/glycerine/src/proxy/worker/nfq.rs:64-65 | the queue is opened first and the connection second; if either fails the sender ends with that error |
| NfqToVsock.NfqToVsock.ReplaceQueue | crates/glycerine/src/proxy/worker/nfq.rs:73-77 | after a queue error only the queue is replaced, the connection stays |
| NfqToVsock.NfqToVsock.ReplaceSocket | crates/glycerine/src/proxy/worker/nfq.rs:79 | after a vsock error only the connection is replaced, the queue stays |
| NfqToVsock.NfqToVsock.Pump | crates/glycerine/src/proxy/worker/nfq.rs:89-163 | forwards messages by the protocol; a queue error means that the last event is a failed receive or verdict, a vsock error a failed or empty send, and success a poll that found the token set, so an overflow goes on |
| NfqToVsock.NfqToVsock.Receive | crates/glycerine/src/proxy/worker/nfq.rs:96-119 | a message is due to be sent, an overflow goes back to the poll, any other error asks for a new queue |
| NfqToVsock.NfqToVsock.Judge | crates/glycerine/src/proxy/worker/nfq.rs:148-159 | one verdict; if it fails the queue has to be replaced, and not the connection |
| NfqToVsock.NfqToVsock.Forward | crates/glycerine/src/proxy/worker/nfq.rs:122-145 | however short the sends are, success means that exactly the payload has been sent and the verdict is due |
| ReceiverProtocol.BoundaryAlways | crates/glycerine/src/proxy/worker/ipv4.rs:134-209 | in every log, the bytes read of a connection are well-formed packets and the start of one more; a packet is pushed only if it is whole and of a protocol with a sink |
| ReceiverProtocol.SplittingIsImmaterial | crates/glycerine/src/proxy/worker/ipv4.rs:135-165 | the packets cut from a connection are a function of its bytes, not of how reads split them |
| ReceiverProtocol.RetainedAtBoundary | crates/glycerine/src/proxy/worker/ipv4.rs:92-120 | whenever a connection is kept, after a sink failure or an unsupported protocol, what was read of it is whole packets |
| ReceiverProtocol.ReadsUseNewest | crates/glycerine/src/proxy/worker/ipv4.rs:92-120 | every read is on the connection opened last |
| ReceiverProtocol.PushesUseNewest | crates/glycerine/src/proxy/worker/ipv4.rs:167-190 | every push is of the packet cut last, to the newest sink of the protocol in its header |
| ReceiverHistory.FollowsExactly | crates/glycerine/src/proxy/worker/ipv4.rs:92-209 | which event can come next is told, for every log, by its last events, the resources opened last and the packets that the bytes read are cut into: both directions; an unsupported protocol leads to a poll |
| ReceiverHistory.DeliveredAlways | crates/glycerine/src/proxy/worker/ipv4.rs:192-209 | delivered are exactly the packets of which a sink has taken all bytes, in the order in which that happened |
| VsockToIpv4.VsockToIpv4.Run | crates/glycerine/src/proxy/worker/ipv4.rs:43-123 | whatever the environment answers, `run` makes only calls that the protocol allows next, ends cleanly exactly on shutdown, and otherwise on an invalid header or when a resource cannot be opened |
| VsockToIpv4.VsockToIpv4.Start | crates/glycerine/src/proxy/worker/ipv4.rs:88-90 | connection, TCP sink and UDP sink are opened in this order |
| VsockToIpv4.VsockToIpv4.ReplaceVsock | crates/glycerine/src/proxy/worker/ipv4.rs:99-103 | after a vsock error only the connection is replaced |
| VsockToIpv4.VsockToIpv4.ReplaceTcp | crates/glycerine/src/proxy/worker/ipv4.rs:105-109 | after a TCP sink error only the TCP sink is replaced |
| VsockToIpv4.VsockToIpv4.ReplaceUdp | crates/glycerine/src/proxy/worker/ipv4.rs:111-115 | after a UDP sink error only the UDP sink is replaced |
| VsockToIpv4.VsockToIpv4.Pump | crates/glycerine/src/proxy/worker/ipv4.rs:125-215 | each error class leaves the receiver in the phase in which exactly the matching resource is due, and is caused by the last event; an invalid header is final, an unsupported protocol ends nothing |
| VsockToIpv4.VsockToIpv4.ReadPacket | crates/glycerine/src/proxy/worker/ipv4.rs:135-165 | success means that the buffer starts with one whole packet of the size and protocol that its header announces |
| VsockToIpv4.VsockToIpv4.ReadExact | crates/glycerine/src/proxy/worker/ipv4.rs:155-165 | fills the range by any number of short reads, keeping what was read before; an empty range needs no read |
| VsockToIpv4.VsockToIpv4.Push | crates/glycerine/src/proxy/worker/ipv4.rs:167-209 | however short the sends are, success means that the sink of the packet's protocol got all of it; an error is of that sink's class |
| Forwarding.RunsAreLogs | crates/glycerine/src/proxy/worker/nfq.rs:67-160 | in every interleaved run each side sees a log of its own loops and ends in the state of that log |
| Forwarding.FramedWasPopped | crates/glycerine/src/proxy/worker/ipv4.rs:134-165 | what the receiver has cut from a connection is exactly the first packets popped for it |
| Forwarding.NeverRejects | crates/glycerine/src/proxy/worker/ipv4.rs:148-152 | no run, whatever recoverable errors occur, ends in "invalid ipv4 packet" |
| Forwarding.EndToEnd | crates/glycerine/src/proxy/worker/ipv4.rs:92-212 | in every run the packets whose sink loop completed are, byte for byte and in order, distinct positions of the packets popped |
| Forwarding.DeliversInOrder | crates/glycerine/src/proxy/worker/ipv4.rs:134-212 | without stream or sink faults, what is delivered is at any moment the TCP and UDP packets among those finished, for every split into sends and reads |
| Forwarding.DeliversAll | crates/glycerine/src/proxy/worker/nfq.rs:122-145 | once all bytes are read, what is delivered is the popped packets filtered to TCP and UDP |
| Delivery.AllCanArrive | crates/glycerine/src/proxy/worker/nfq.rs:95-160 | for every list of well-formed packets some fault-free run delivers all that have a sink |
| Recovery.RecoversAlways | crates/glycerine/src/proxy/worker/nfq.rs:67-84 | from the end of any run in which neither side has ended, with whatever failures in it, some continuation pops any given packets and delivers all of them that have a sink, after the loss of at most one message |
| VirtioVsock.CountedAlways | enclave/_kernel/patches/0001-vsock-virtio-remove-queued-replies-linux-6.12.patch:64-156 | in every run `queued_replies` is the number of replies in the send queue and at most the ring size, and `rx_work` is stopped only while it equals the ring size, so no restart is missed |
| VirtioVsock.ConservedAlways | enclave/_kernel/patches/0001-vsock-virtio-remove-queued-replies-linux-6.12.patch:53-113 | unless connections are cancelled, what one side sent is what the other got, then its RX ring, then the TX ring, then the queue, in order |
| VirtioVsock.KeepSelects | enclave/_kernel/patches/0001-vsock-virtio-remove-queued-replies-linux-6.12.patch:127-138 | purging leaves exactly the packets of other connections, in their order |
| VirtioVsock.KeepCountsReplies | enclave/_kernel/patches/0001-vsock-virtio-remove-queued-replies-linux-6.12.patch:127-138 | the replies that purging drops are those of the connection |
| VirtioDriver.WorkAllExactly | enclave/_kernel/patches/0001-vsock-virtio-remove-queued-replies-linux-6.12.patch:53-101 | the send queue moves into the ring up to the minimum of its length and the free slots; the counter and the restart of `rx_work` follow from the replies moved |
| VirtioDriver.RxAllExactly | enclave/_kernel/patches/0001-vsock-virtio-remove-queued-replies-linux-6.12.patch:161-175 | the packets taken are the first of the ring, the reactions follow what was sent before, and it ends with the ring empty or, stopped, without room for replies |
| VirtioDriver.VirtioVsockDriver.SendPkt | enclave/_kernel/patches/0001-vsock-virtio-remove-queued-replies-linux-6.12.patch:104-113 | the packet goes past the queue only if the queue is empty and the ring has room, else to its end, and a reply is counted |
| VirtioDriver.VirtioVsockDriver.SendPktWork | enclave/_kernel/patches/0001-vsock-virtio-remove-queued-replies-linux-6.12.patch:53-101 | moves packets in order until the queue is empty or the ring full; the counter falls by the replies moved, and `rx_work` is restarted exactly if it falls below the ring size |
| VirtioDriver.VirtioVsockDriver.PurgeSkbs | enclave/_kernel/patches/0001-vsock-virtio-remove-queued-replies-linux-6.12.patch:127-138 | drops exactly the packets of the connection, keeps the order of the others, and tells how many replies of the connection there were |
| VirtioDriver.VirtioVsockDriver.CancelPkt | enclave/_kernel/patches/0001-vsock-virtio-remove-queued-replies-linux-6.12.patch:114-140 | drops exactly the packets of the connection; the counter falls by its replies, and `rx_work` is restarted exactly when it crosses the ring size |
| VirtioDriver.VirtioVsockDriver.RxWork | enclave/_kernel/patches/0001-vsock-virtio-remove-queued-replies-linux-6.12.patch:161-175 | takes packets in order until the ring is empty or, with the pushback, until there is no room for replies, and then stays stopped; reactions are sent in order |
| VirtioDriver.WorkAllIsRun | enclave/_kernel/patches/0001-vsock-virtio-remove-queued-replies-linux-6.12.patch:53-101 | what `send_pkt_work` does is a run of single steps of the two-driver system |
| VirtioDriver.RxAllIsRun | enclave/_kernel/patches/0001-vsock-virtio-remove-queued-replies-linux-6.12.patch:161-175 | what `rx_work` does is a run of single steps of the two-driver system |
| VirtioDriver.WorkAllIsMaximal | enclave/_kernel/patches/0001-vsock-virtio-remove-queued-replies-linux-6.12.patch:53-101 | after `send_pkt_work` no step of it is possible |
| VirtioDriver.RxAllIsMaximal | enclave/_kernel/patches/0001-vsock-virtio-remove-queued-replies-linux-6.12.patch:161-175 | after `rx_work` no step of it is possible |
| VirtioProgress.RunsAreBounded | enclave/_kernel/patches/0001-vsock-virtio-remove-queued-replies-linux-6.12.patch:14-30 | without new sends every run, patched or not, has at most as many steps as the weight of its start |
| VirtioProgress.StuckExactly | enclave/_kernel/patches/0001-vsock-virtio-remove-queued-replies-linux-6.12.patch:21-26 | a system that obeys the counter invariant has no step left exactly if everything is drained or both sides have full rings and a ring's worth of queued replies |
| VirtioProgress.PatchedAlwaysDrains | enclave/_kernel/patches/0001-vsock-virtio-remove-queued-replies-linux-6.12.patch:28-30 | without the pushback, for all ring sizes from 1, every maximal run drains queues and rings, and each side has received exactly what the other sent |
| VirtioProgress.UnpatchedDrainsOrDeadlocks | enclave/_kernel/patches/0001-vsock-virtio-remove-queued-replies-linux-6.12.patch:21-26 | with the pushback, a run that cannot go on is drained or deadlocked |
| VirtioProgress.DeadlockReachable | enclave/_kernel/patches/0001-vsock-virtio-remove-queued-replies-linux-6.12.patch:21-26 | with the pushback, for all ring sizes from 1, a run leads from the start to both rings full on both sides, as many replies queued as the ring holds, and no step enabled |
| VirtioProgress.DeadlockStays | enclave/_kernel/patches/0001-vsock-virtio-remove-queued-replies-linux-6.12.patch:21-26 | unless a connection is cancelled, nothing is ever received after the deadlock, whatever is sent |
| RecordJson.PrintParses | crates/glycerine/src/bootstrap/mod.rs:46-48 | a printed record, of any strings and any number of service ranges, parses to the same record |
| RecordJson.PrefixIsRejected | crates/glycerine/src/bootstrap/mod.rs:342-353 | no proper prefix of a text that parses does parse |
| RecordCanon.ParsesExactly | crates/glycerine/src/bootstrap/mod.rs:171-256 | a text without escapes parses to a record exactly if it is that record printed |
| RecordJson.PrintExample | crates/glycerine/src/bootstrap/mod.rs:171-256 | one record in full: the names and order of the members, escapes, no space |
| Bootstrap.Serve | crates/glycerine/src/bootstrap/mod.rs:119-166 | writes a prefix of the record in any pieces, one write for each poll that finds the token unset, and all of it unless the token is found set; an error means a failed or empty write |
| Bootstrap.Receive | crates/glycerine/src/bootstrap/mod.rs:306-340 | one read for each poll that finds the token unset; every read has room in a buffer of 4096 times a power of two up to 2^20, so 0 is the end; without shutdown or errors the result is all the data exactly if that is shorter than 2^20 |
| Bootstrap.Get | crates/glycerine/src/bootstrap/mod.rs:260-362 | the record is parsed from the bytes received; without shutdown or errors it succeeds exactly if the data is shorter than 2^20 and parses |
| Bootstrap.TransferRecord | crates/glycerine/src/bootstrap/mod.rs:133-155 | over a stream cut anywhere, with any failures and shutdowns, the client gets the served record or an error; if nothing goes wrong, the record exactly if its text is shorter than 2^20 |
| Parsers.SplitJoins | crates/glycerine/src/cli/parsers.rs:102 | splitting at a separator is undone by joining, and no part holds the separator |
| Decimal.ParseUnsignedExactly | crates/glycerine/src/cli/parsers.rs:108-122 | a text is accepted as a number exactly if it is digits, after an optional plus sign, of a value below the bound |
| Parsers.ParsePortRange | crates/glycerine/src/cli/parsers.rs:94-128 | an accepted range is normalised |
| Parsers.PortRangeOfText | crates/glycerine/src/cli/parsers.rs:108-124 | a port, and two ports in either order, are read back from their decimal text as the normalised range |
| Parsers.PortRangeExactly | crates/glycerine/src/cli/parsers.rs:94-128 | a text is accepted as a range exactly if it is one port, or two with one hyphen between them, of which the range is the smaller and the larger |
| Parsers.ParseAddress | crates/glycerine/src/cli/parsers.rs:139-162 | an accepted address is 32 bits each and its cid is never 0 |
| Parsers.AddressExactly | crates/glycerine/src/cli/parsers.rs:145-161 | a text is accepted as an address exactly if it is two numbers around a colon; a cid of 0 stands for 0xFFFFFFFF |
| Parsers.DisplayedAddressParses | crates/glycerine/src/system/mod.rs:19-20 | a displayed address is read back as itself exactly if its cid is not 0 |
| Parsers.DisplayIsStable | crates/glycerine/src/cli/parsers.rs:145-161 | displaying and reading back an accepted text gives the same address, the alias of 0 and 0xFFFFFFFF included |
| Netfilter.BigEndianOrder | crates/glycerine/src/system/netfilter.rs:95-103 | bytewise order of big-endian ports is their numeric order |
| Netfilter.IngressRulesMean | crates/glycerine/src/system/netfilter.rs:78-126 | for any list of ranges the ingress rules queue a packet exactly if the interface matches, the protocol number is 6 for the TCP table and 17 for the UDP table, and the destination port is in the union |
| Netfilter.EgressRulesMean | crates/glycerine/src/system/netfilter.rs:168-216 | for any list of ranges the egress rules queue a packet exactly if the source address matches, the protocol number is 6 or 17 by the table, and the source port is in the union |
| Netfilter.PreambleResets | crates/glycerine/src/system/netfilter.rs:67-76 | add, delete, add leaves the table with one empty chain whatever it held before, and other tables as they were |
| Netfilter.AddIngressSink | crates/glycerine/src/system/netfilter.rs:34-132 | success leaves the table with exactly the compiled rules, which queue exactly the packets of protocol 6 or 17 on the interface for a port of the union, and all else unchanged; failure changes nothing; other protocols are refused |
| Netfilter.AddEgressSink | crates/glycerine/src/system/netfilter.rs:134-222 | the same for the egress table |
| Steering.RejectedExactly | crates/glycerine/src/proxy/host.rs:180-200 | a configuration is rejected exactly if some enclave range meets the host's range without strictly enclosing it; the error names the ephemeral range exactly if it is one of these |
| Steering.DisjointExactly | crates/glycerine/src/proxy/host.rs:180-200 | in an accepted configuration the port sets are disjoint exactly if no enclave range strictly encloses the host's |
| Steering.EnclosingIsAccepted | crates/glycerine/src/proxy/host.rs:189-197 | a concrete overlapping configuration that is accepted |
| Steering.DocumentedExactly | crates/glycerine/src/cli/host.rs:33-37 | what is documented to be fine is accepted; what is accepted is fine exactly if nothing encloses the host's range and no service range reaches into the enclave's ephemeral one |
| Steering.ServiceInsideEphemeralIsAccepted | crates/glycerine/src/cli/host.rs:33-37 | a concrete accepted configuration whose service ports overlap with the enclave's ephemeral ports, against the documentation |
| Steering.HostSetup | crates/glycerine/src/proxy/host.rs:102-178 | success leaves tables that capture exactly the TCP and UDP packets (6 and 17) on the interface for a service or ephemeral port of the enclave; a rejected configuration changes nothing; a failure leaves at most the TCP table |
| Steering.EnclaveSetup | crates/glycerine/src/proxy/enclave.rs:251-294 | success leaves tables that capture exactly the TCP and UDP packets (6 and 17) from the address and the record's ports; a failure leaves at most the TCP table |
| Steering.HostCaptures | crates/glycerine/src/proxy/host.rs:133-142 | the host captures exactly the packets of protocol 6 or 17 that come in on the interface for an enclave port; the TCP table takes only 6 and the UDP table only 17, so never both |
| Steering.EnclaveCaptures | crates/glycerine/src/proxy/enclave.rs:251-264 | the enclave captures exactly the packets of protocol 6 or 17 from its address and ports; the TCP table takes only 6 and the UDP table only 17, so never both |
| Steering.SteeringIsSymmetric | crates/glycerine/src/bootstrap/mod.rs:178-195 | for every configuration carried through the record, which also keeps address and MTU, the host captures a packet on its interface exactly if the enclave captures the answer from the bootstrapped address |
| Steering.HostPortsLeftAlone | crates/glycerine/src/proxy/host.rs:180-200 | in an accepted configuration no packet for a host ephemeral port is ever captured exactly if no enclave range strictly encloses the host's |
| Dump.WalkPartitions | crates/glycerine/src/proxy/worker/debug.rs:186-255 | on every byte string the options visited and the unread tail make up the input |
| Dump.WalkOfEncoding | crates/glycerine/src/proxy/worker/debug.rs:209-250 | walking the encoding of any list of well-formed options, SACK blocks included, gives that list and goes on with what follows |
| Dump.ItemExactly | crates/glycerine/src/proxy/worker/debug.rs:209-250 | an option of a known kind and length is shown as what encodes to its bytes, any other as unknown with kind and length |
| Dump.OptionLayout | crates/glycerine/src/proxy/worker/debug.rs:209-250 | kind, length and data of every encoded option, in bytes |
| Dump.WalkOfOption | crates/glycerine/src/proxy/worker/debug.rs:196-250 | any option with a valid length is shown, and the walk goes on behind it |
| Dump.WalkOfEnd | crates/glycerine/src/proxy/worker/debug.rs:196-199 | the end of the list ends the walk, whatever follows |
| Dump.WalkOfMalformed | crates/glycerine/src/proxy/worker/debug.rs:204-214 | a length that is missing, below 2 or beyond the end makes the option malformed and ends the walk |
| Dump.SackBlocks | crates/glycerine/src/proxy/worker/debug.rs:225-236 | the chunks of eight bytes are the left and right edges in order |
| Dump.RenderOption | crates/glycerine/src/proxy/worker/debug.rs:196-250 | each branch prints the option at the front and advances by its length, or stops |
| Dump.TcpOptions | crates/glycerine/src/proxy/worker/debug.rs:186-255 | the loop ends and prints all options of the walk, separated by commas |
| Dump.ListedAlternates | crates/glycerine/src/proxy/worker/debug.rs:191-194 | every item is printed, in order, with one comma between each two |
| Dump.TcpFlags | crates/glycerine/src/proxy/worker/debug.rs:154-181 | prints the labels of the bits that are set, in order, and "none" exactly for 0 |
| Dump.LabelsInFull | crates/glycerine/src/proxy/worker/debug.rs:156-173 | the eight labels, each with its bit, in order |
| Dump.FlagsAreDistinguished | crates/glycerine/src/proxy/worker/debug.rs:156-173 | different flag bytes print differently |
| Dump.RenderTcpOfEncoding | crates/glycerine/src/proxy/worker/debug.rs:88-149 | rendering an encoded TCP segment shows every field as encoded, its options and data length; sequence range, acknowledgement and urgent pointer exactly when they are meaningful |
| Dump.RendersExactlyWholePackets | crates/glycerine/src/proxy/worker/debug.rs:8-48 | rendering is total, and avoids every IP-level complaint exactly for byte strings that start with a whole packet acceptable to `ipv4_total_len` |
| Dump.RendersTcp | crates/glycerine/src/proxy/worker/debug.rs:34-37 | a packet of protocol 6 whose payload is an encoded TCP segment is shown with its addresses and the fields of that segment |
| Dump.RendersCutTcp | crates/glycerine/src/proxy/worker/debug.rs:88-111 | a TCP segment cut off before its options end is shown as truncated, with its length |
| Dump.RendersUdp | crates/glycerine/src/proxy/worker/debug.rs:262-281 | a packet of protocol 17 is shown with its addresses, its ports and the length that the datagram claims, less 8 and at least 0 |
| Dump.RendersOthers | crates/glycerine/src/proxy/worker/debug.rs:38-46 | a datagram below 8 bytes is shown as truncated, any other protocol by number and payload length |
| Dump.RendersCutPacket | crates/glycerine/src/proxy/worker/debug.rs:10-32 | what is shown of a packet of which only the first bytes are there |
| Dump.RendersOtherVersion | crates/glycerine/src/proxy/worker/debug.rs:14-16 | another version is shown with the length |
| Dump.RendersShortTotal | crates/glycerine/src/proxy/worker/debug.rs:18-24 | a total length below the header length is shown as invalid |

## Left out

- Opening sockets and queues, half-closing, accepting, timeouts and retries: each is one
  environment call that succeeds or gives up (`crates/glycerine/src/system/vsock.rs`).
- `Bootstrap::run`, the accept loop around `serve`.
- Ephemeral port files, interfaces, routes and MTU: library and kernel calls; in the setups
  the ephemeral port call is one that may fail.
- Netlink encoding and the nft virtual machine beyond loads, comparisons and the queue verdict.
- The parsing of the interface address on the enclave: `EnclaveSetup` gets its four bytes.
- RecordJson.PrefixIsRejected: the parser takes the compact form with members in declaration
  order, and escapes of one octet only; white space, other orders and unknown members, which
  serde accepts, are not modelled.
- Dump.TcpOptions: the formatter's output is a list of printed items and commas, not characters;
  so are the other texts of the decoder.
- VirtioVsock.CountedAlways: credits, connection state, locking and the races between the
  counter and the queue are not modelled, as that code is not in the patch.
- VirtioProgress.DeadlockStays: cancelling a connection, which can undo the deadlock, is excluded.
- Logging, error texts, command line definitions, signals and the async runtime.
- Deployment files: Nix, shell scripts, supervisord and ssh configuration.
- Nothing was executed.
