# Verified model of wetnork's transport core

wetnork tunnels packets between peers: a tun device feeds a TLS session over UDP, and inside the
session channels carry payloads either unreliably or by a stop-and-wait protocol; a privileged host
process hands out tun devices over a small IPC archive format. This project models the parts of that
code that carry state or a format, and proves what they do over every input and every run.

| file | contents |
|---|---|
| `Bytes.dfy`, `Packet.dfy`, `Stream.dfy`, `Header.dfy` | bytes and 32-bit counters, packet windows, gather-write, the six-byte header |
| `ReliableChannel.dfy` | one endpoint: its reactions, what holds of it against any peer, and the channel object working on bytes |
| `Protocol.dfy` | two endpoints over a network that loses, duplicates and reorders: the inductive invariant and safety |
| `Progress.dfy` | an undisturbed exchange, and a driver that gets any list of payloads across under finitely many losses |
| `WireProtocol.dfy` | the same protocol on byte strings, shown to be the protocol on frames step for step |
| `ChannelPair.dfy` | any run of that protocol, played on two channel objects |
| `Serialization.dfy`, `IPAddress.dfy` | the two-pass archive writer, the reader, round trips, and IP addresses as a client |
| `Tunnel.dfy` | the unreliable channel and the tunnel's dispatch |
| `CryptoSession.dfy` | the TLS session's state machine, with GnuTLS as a scripted oracle |
| `TunDevices.dfy` | who owns which tun descriptor |

Source objects that update fields are classes here; each of their methods is proved to do what a pure
function of the old state says, and the theorems are about runs of those functions. System calls, the
network, timers and GnuTLS are parameters: any answer they may give is covered.

## What the proofs show about the code

- A payload accepted by the reliable channel is neither sent nor given a timer, and only an expiring
  timer sends. A fresh channel driven by its own timer alone therefore never sends a data frame
  (`NeverTransmitsUnprompted`). All other protocol theorems let timeouts happen at any moment.
- Both counters start at 0 and delivery needs a number above `peerSeq`, so payload number 0 is
  acknowledged and lost (`FirstPayloadIsLost`); everything else arrives once and in order.
- The acknowledgement branch does not check that anything is in flight. This matters exactly once the
  32-bit counter has wrapped: an idle channel can take an acknowledgement if and only if it has
  (`AckTakenIdleIffWrapped`, and `StaleAckAfterWrap` for a run that gets there). From then on nothing is
  delivered (`NothingDeliveredAfterWrap`), yet new payloads can be acknowledged (`AcceptedAfterWrapIsLost`).
- The archive's descriptor list is written by both passes and so holds every descriptor twice. The
  reader's offsets are never set; `RoundTripExactly` says from which offsets, of all, a value comes back.
- `Tunnel::propagate` strips the channel tag and the channel strips it again, so the tunnel delivers
  a packet without its first byte; it is intact only if empty (`TunnelIntactIffEmpty`).
- The documentation of `Packet::truncate` (include/Packet.hpp:82-88) says that a limit beyond the
  length gives an empty packet; the code keeps the whole packet, so the documentation is right exactly
  for empty packets (`TruncateBeyondLength`). The model follows the code.
- Move assignment of a `TunDevice` leaves `ifIndex_` behind, so it takes over the other device's
  contents exactly if the indices agree (`AssignmentCompleteIff`).
- `GNUTLS_E_AGAIN`, harmless during a handshake, aborts a session exactly if it is Open
  (`AgainAbortsIffOpen`); `AbortedIffFatal` is the condition for any script.

## Model

| member | source | states |
|---|---|---|
| Packets.CutAndRejoin | common/Packet.cpp:3-19 | `truncate(k)` followed by `skip(k)` rebuild the packet, for every k |
| Packets.TruncateBeyondLength | common/Packet.cpp:12-19 | a limit beyond the length keeps the whole packet; it is empty, as documented, if and only if it was empty before |
| Packets.ChainsCollapse | common/Packet.cpp:3-19 | every chain of `skip` and `truncate` equals one skip and one truncate, reads one slice of the window and never leaves it |
| Streams.Gather | include/network.hpp:34-51 | the measuring and the copying loop produce exactly the concatenation of the packets, with no copy out of range |
| Headers.FrameRoundTrip | net/Tunnel.ReliableChannel.cpp:12-46 | channel id, flags, big-endian number and payload survive encoding and decoding |
| Headers.FrameBytesRoundTrip | net/Tunnel.ReliableChannel.cpp:33-45 | every string of at least six bytes is the encoding of exactly one channel id and frame |
| Headers.WireLayout | net/Tunnel.ReliableChannel.cpp:14-31 | on the wire: id, flags, the number as an independent big-endian reading gives it, payload |
| ReliableChannels.FlagsDecide | net/Tunnel.ReliableChannel.cpp:90-105 | a frame is taken as an acknowledgement if and only if bit 0x01 is set and the number matches, answered if and only if the flag byte is 0, and ignored otherwise |
| ReliableChannels.FramesAreStamped | net/Tunnel.ReliableChannel.cpp:68-105 | every string a channel writes, acknowledgements included, begins with its own id and flag byte and decodes to the frame meant |
| ReliableChannels.DeliversExactlyTheRecords | net/Tunnel.ReliableChannel.cpp:96-105 | against any peer, the deliveries are exactly the data frames whose number exceeds zero and every earlier one, in order |
| ReliableChannels.DeliveriesAreBounded | net/Tunnel.ReliableChannel.cpp:99-102 | delivered numbers strictly increase up to `peerSeq`, so a channel makes fewer than 2^32 deliveries in its life |
| ReliableChannels.EveryDataFrameIsAcknowledged | net/Tunnel.ReliableChannel.cpp:96-105 | the acknowledgements sent are exactly those of the data frames received, repeated ones included, in order |
| ReliableChannels.TimerInvariant | net/Tunnel.ReliableChannel.cpp:48-94 | the timer is armed exactly while a payload that has been transmitted awaits its acknowledgement |
| ReliableChannels.NeverTransmitsUnprompted | net/Tunnel.ReliableChannel.cpp:48-84 | if timeouts fire only when the timer is armed, a constructed channel never sends a data frame |
| ReliableChannels.ReliableChannel.constructor | net/Tunnel.ReliableChannel.cpp:48-52 | both counters 0, nothing in flight, timer off |
| ReliableChannels.ReliableChannel.OnTimeout | net/Tunnel.ReliableChannel.cpp:54-57 | after the one-shot timer fired, it is armed again exactly if a payload in flight was sent |
| ReliableChannels.ReliableChannel.TransmitQueue | net/Tunnel.ReliableChannel.cpp:59-66 | sends the payload in flight as a data frame and arms the timer, or does nothing |
| ReliableChannels.ReliableChannel.TransmitPacket | net/Tunnel.ReliableChannel.cpp:68-73 | the bytes written are the encoded data frame with the current number |
| ReliableChannels.ReliableChannel.WritePacket | net/Tunnel.ReliableChannel.cpp:75-84 | takes the packet exactly if nothing is in flight, and touches neither wire nor timer |
| ReliableChannels.ReliableChannel.ReadPacket | net/Tunnel.ReliableChannel.cpp:86-106 | on bytes, performs exactly the reaction to the decoded frame, writing the encoded acknowledgement |
| Protocol.InvKept | net/Tunnel.ReliableChannel.cpp:48-106 | every step of either endpoint keeps the invariant tying both counters to every frame on the wire |
| Protocol.DeliveredIsPrefix | net/Tunnel.ReliableChannel.cpp:75-106 | in every run, across the wrap, what a side delivered is a prefix of what the other accepted, payload 0 left out |
| Protocol.DeliveredIsExact | net/Tunnel.ReliableChannel.cpp:68-106 | before the wrap the counters differ by at most one, frames carry the payload of their number, and exactly payloads 1 to `peerSeq` are delivered |
| Protocol.LocalSeqCountsAcks | net/Tunnel.ReliableChannel.cpp:90-92 | `localSeq` is the number of matching acknowledgements modulo 2^32 in every reachable state |
| Protocol.WrapOnlyAfterLastNumber | net/Tunnel.ReliableChannel.cpp:90-102 | a sender has wrapped only if its peer has reached number 2^32-1 and delivered 2^32-1 payloads |
| Protocol.NothingDeliveredAfterWrap | net/Tunnel.ReliableChannel.cpp:99-102 | from the wrap on, in every continuation, the peer delivers nothing |
| Protocol.AckFindsItsPayload | net/Tunnel.ReliableChannel.cpp:90-95 | before the wrap a matching acknowledgement finds its payload in flight, already delivered by the peer as its k-th if k > 0 |
| Protocol.AckTakenIdleIffWrapped | net/Tunnel.ReliableChannel.cpp:90-95 | in every reachable state with nothing in flight, an acknowledgement that would be taken can arrive if and only if the sender has wrapped |
| Protocol.WrappedTakesStaleAck | net/Tunnel.ReliableChannel.cpp:90-95 | in every reachable wrapped state an acknowledgement of the current number is on the wire and is taken |
| Protocol.AcceptedAfterWrapIsLost | net/Tunnel.ReliableChannel.cpp:75-106 | a payload accepted after the wrap can be acknowledged without having been sent, and is never delivered in any continuation |
| Protocol.RepeatsAreHarmless | net/Tunnel.ReliableChannel.cpp:90-105 | reading a frame again in any later state before the wrap changes nothing but that repeated data is acknowledged again |
| Progress.ExchangeClears | net/Tunnel.ReliableChannel.cpp:54-106 | timeout, data arrival and acknowledgement arrival are possible from every reachable state with payload k in flight, clear it, and leave payloads 1 to k delivered |
| Progress.EverythingGetsAcross | net/Tunnel.ReliableChannel.cpp:54-106 | from every reachable idle state before the wrap, any list of payloads that fits before it, under any finite script of losses, is sent by a terminating run after which everything accepted but the very first payload is delivered |
| Progress.EverythingGetsAcrossFromStart | net/Tunnel.ReliableChannel.cpp:54-106 | in particular any list of at most 2^32 payloads between fresh endpoints |
| Progress.FirstPayloadIsLost | net/Tunnel.ReliableChannel.cpp:96-105 | payload 0 is accepted and acknowledged and not delivered |
| Progress.StaleAckAfterWrap | net/Tunnel.ReliableChannel.cpp:90-95 | the wrap is reached, by sending 2^32 payloads, and there the acknowledgement of payload 0 is taken with nothing in flight |
| WireProtocol.NodeSimulates | net/Tunnel.ReliableChannel.cpp:68-106 | one step of an endpoint on bytes is one step on frames |
| WireProtocol.BytesSimulateFrames | net/Tunnel.ReliableChannel.cpp:12-106 | every run on bytes is step for step a run on frames, and no string shorter than a header ever arrives |
| WireProtocol.FramesAreRealized | net/Tunnel.ReliableChannel.cpp:12-106 | every run on frames is the meaning of some run on bytes |
| WireProtocol.WireFormat | net/Tunnel.ReliableChannel.cpp:12-106 | in every run each string on the wire begins with the id of the side that wrote it, and is a data frame with flag byte 0 or a bare header with flag byte 1 |
| WireProtocol.WireDeliveredIsPrefix | net/Tunnel.ReliableChannel.cpp:12-106 | end to end on bytes, delivered is a prefix of accepted without its first payload |
| WireProtocol.WireEverythingGetsAcross | net/Tunnel.ReliableChannel.cpp:12-106 | on bytes too, any list of payloads gets across under any finite script of losses |
| ChannelPairs.Play | net/Tunnel.ReliableChannel.cpp:48-106 | two channel objects put through any run the network allows end as the protocol on bytes says, every string they wrote begins with their own id, and each has received a prefix of what the other was seen to accept, its first payload left out |
| Serialization.Serializer.PushRaw | include/ipc/Serializer.hpp:29-35 | stores exactly the given bytes at the offset, inside the buffer and nowhere else, or only measures |
| Serialization.Serializer.Write | include/ipc/Serializer.hpp:37-56 | appends exactly the pure encoding and the descriptors of a tree, in either pass |
| Serialization.Serializer.WriteAll | include/ipc/Serializer.hpp:58-69 | the element loop appends the encodings in order |
| Serialization.Serializer.Run | include/ipc/Serializer.hpp:71-85 | the buffer sized by the measuring pass is filled completely with the encoding; every descriptor is listed twice |
| Serialization.Serialize | include/ipc/Serializer.hpp:133-138 | the archive is the encoding, its length, and the descriptors twice |
| Serialization.EncodingIsMemoryImages | include/ipc/Serializer.hpp:29-69 | the data of an archive is the memory images of its plain-old-data values from left to right and nothing else |
| Serialization.BulkCopyIsElementwise | include/ipc/Serializer.hpp:44-49 | the bulk copy of a plain-old-data array equals writing its items one by one |
| Serialization.DecodeUndoesEncode | include/ipc/Deserializer.hpp:31-101 | wherever a value's encoding lies in an archive, reading its type there yields the value and moves past it |
| Serialization.DecodeIsSound | include/ipc/Deserializer.hpp:31-101 | whatever a successful read returns has the type read, and its encoding lies where it was read |
| Serialization.ArchiveRoundTrip | include/ipc/Deserializer.hpp:78-120 | reading an archive from offset 0 returns the value, ends at its length and halfway through the descriptors |
| Serialization.RoundTripExactly | include/ipc/Deserializer.hpp:84-87 | from any offsets whatever the value returns if and only if the byte offset is 0, unless it has no bytes, and the right descriptors, if it has any, are at the descriptor offset |
| Serialization.PrefixFree | include/ipc/Serializer.hpp:37-85 | no value's encoding begins another's of the same type |
| Serialization.Deserializer.PopRaw | include/ipc/Deserializer.hpp:31-35 | returns the next bytes and advances past them |
| Serialization.Deserializer.ReadFd | include/ipc/Deserializer.hpp:117-120 | returns the next descriptor and advances past it |
| Serialization.Deserializer.Read | include/ipc/Deserializer.hpp:37-63 | reads what the pure decoder reads and stops where it stops |
| Serialization.Deserializer.ReadArray | include/ipc/Deserializer.hpp:65-76 | the element loop reads what the pure decoder reads; this is the intended behaviour, the overload it calls does not exist |
| IPAddresses.SerializeAddress | common/IPAddress.cpp:30-42 | appends the encoding of the address's tree |
| IPAddresses.DeserializeAddress | common/IPAddress.cpp:44-56 | reads what the generic reader reads for the address schema |
| IPAddresses.AddressLayout | common/IPAddress.cpp:30-42 | four bytes that read little-endian give 2 for IPv4 and 10 for IPv6, then the 4 or 16 bytes of the address, no descriptors |
| IPAddresses.SerializeOne | wetnork.cpp:30-31 | the archive of one address has exactly that layout |
| IPAddresses.AddressReadExactly | common/IPAddress.cpp:44-56 | an address is read at a position if and only if that layout of it lies there |
| IPAddresses.AddressListRoundTrip | common/IPAddress.cpp:30-56 | any mixed list of addresses written back to back reads back as that list |
| IPAddresses.AddressPrefixFree | common/IPAddress.cpp:30-42 | no address's encoding begins another's |
| IPAddresses.AddressListsInjective | common/IPAddress.cpp:30-42 | lists of any lengths with the same bytes are the same list |
| Tunnels.WriteUnreliable | net/Tunnel.UnreliableChannel.cpp:40-45 | the frame is the channel id followed by the payload |
| Tunnels.DirectReadReturnsPayload | net/Tunnel.UnreliableChannel.cpp:47-50 | read directly, a frame yields exactly the payload written |
| Tunnels.PropagateAccepts | net/Tunnel.cpp:25-47 | a packet is accepted if and only if it is not empty and begins with 0; it is too short if and only if empty, of an unknown channel otherwise |
| Tunnels.TunnelDropsFirstByte | net/Tunnel.cpp:37-57 | through the tunnel a payload arrives without its first byte |
| Tunnels.TunnelIntactIffEmpty | net/Tunnel.cpp:37-57 | the tunnel delivers a payload intact if and only if it is empty |
| Tunnels.Carry | net/Tunnel.cpp:37-57 | `tunRead` on one side and `propagate` on the other, composed |
| CryptoSessions.EveryRun | net/CryptoSession.cpp:45-162 | in every run the notices are an unbroken legal path to the current state or to the one silently aborted from, `gnutls_bye` was called once if Closed and never otherwise, and pulled datagrams are prefixes of distinct arrivals in order |
| CryptoSessions.TerminalForever | net/CryptoSession.cpp:113-178 | Closed and Aborted are never left, and nothing happens in them but that arrivals are buffered |
| CryptoSessions.TerminalIsFinal | net/CryptoSession.cpp:113-178 | a closed or aborted session refuses every call |
| CryptoSessions.FirstDecisiveReplyDecides | net/CryptoSession.cpp:65-111 | the mutual recursion ends at the first reply that is not a hand-over, and outcome, state, every notice, bye, pulls and plaintext are then what a closed form without recursion says |
| CryptoSessions.SomeReplyDecides | net/CryptoSession.cpp:65-111 | such a reply always comes, at the latest when the script is used up |
| CryptoSessions.OpenDecides | net/CryptoSession.cpp:126-134 | `open` on a new session announces Opening, then does all the deciding reply calls for |
| CryptoSessions.ReadDecides | net/CryptoSession.cpp:113-162 | a packet read by an active session is buffered, then all the deciding reply calls for is done, handing up plaintext included |
| CryptoSessions.RenegotiateAndCloseAnnounce | net/CryptoSession.cpp:136-154 | on an Open session `renegotiate`, on an active one `close`, changes state with exactly one notice; `close` with one `gnutls_bye` |
| CryptoSessions.RefusedIffNotServed | net/CryptoSession.cpp:113-178 | each call is refused if and only if the state is not one it is served in, and then changes nothing but that a packet read is buffered |
| CryptoSessions.WriteAnswers | net/CryptoSession.cpp:164-178 | `write` refuses, answers false, throws or answers true, each if and only if state and library result say so |
| CryptoSessions.FailureMeansAborted | net/CryptoSession.cpp:52-178 | a call other than `write` reports a failure if and only if the session is then Aborted; `write` never changes the session |
| CryptoSessions.AbortedIffFatal | net/CryptoSession.cpp:65-122 | reading a packet aborts an active session if and only if the deciding reply is fatal to the handler in charge |
| CryptoSessions.AgainAbortsIffOpen | net/CryptoSession.cpp:65-111 | the reply `GNUTLS_E_AGAIN` aborts an active session if and only if it is Open |
| CryptoSessions.ArrivalIsPulledOnce | net/CryptoSession.cpp:158-213 | a packet read by an active session is what the first pull of that call gets, cut to size, and no later pull gets anything; unpulled, it stays buffered |
| CryptoSessions.CryptoSession.OnHandshake | net/CryptoSession.cpp:65-85 | performs the handshake handler's specification |
| CryptoSessions.CryptoSession.OnData | net/CryptoSession.cpp:87-111 | performs the data handler's specification |
| CryptoSessions.CryptoSession.ReadPacket | net/CryptoSession.cpp:113-162 | buffers the packet, then dispatches on the state or refuses |
| CryptoSessions.CryptoSession.OpenSession | net/CryptoSession.cpp:126-134 | refused unless Invalid, otherwise announces Opening and shakes hands |
| CryptoSessions.CryptoSession.Renegotiate | net/CryptoSession.cpp:136-144 | refused unless Open, otherwise announces Renegotiating |
| CryptoSessions.CryptoSession.Close | net/CryptoSession.cpp:146-154 | refused unless active, otherwise says goodbye and announces Closed |
| CryptoSessions.CryptoSession.Write | net/CryptoSession.cpp:164-178 | refused unless Open; otherwise true, false or an exception as the library answers |
| CryptoSessions.CryptoSession.TransportPull | net/CryptoSession.cpp:202-213 | hands over the buffered datagram cut to size, once |
| TunDevices.OwnershipHolds | host/TunDevice.cpp:11-51 | in every run, moves and destruction of registries included, the open descriptors are exactly those held, unshared, each opened one closed once or still open |
| TunDevices.NothingLeaks | host/TunDevice.cpp:31-51 | when no device is left, nothing is open and every descriptor was closed as often as opened |
| TunDevices.FindReturnsLatest | host/TunRegistry.cpp:40-57 | `findDevice` returns the latest unclosed device of that name, also across moves of registries |
| TunDevices.NamesFollowDescriptors | host/TunDevice.cpp:11-44 | in every run a device that holds a descriptor bears the name under which that descriptor's current opening came into the world, read from the events alone |
| TunDevices.HandlesAreTraced | host/TunDevice.cpp:11-44 | in every run a handle's descriptor and index are those its history gives it, the index staying behind in a move assignment |
| TunDevices.AssignmentCompleteIff | host/TunDevice.cpp:18-29 | move assignment takes over the whole device if and only if the indices agree |
| TunDevices.TunDevice.Move | host/TunDevice.cpp:11-16 | takes over everything and leaves the other empty |
| TunDevices.TunDevice.Assign | host/TunDevice.cpp:18-29 | closes the old descriptor, takes over descriptor and name, empties the other, also on self-assignment |
| TunDevices.TunDevice.Duplicate | host/TunDevice.cpp:36-44 | a new device with the new descriptor, or an exception |
| TunDevices.TunDevice.Close | host/TunDevice.cpp:31-51 | closes the descriptor held, if any |
| TunDevices.TunRegistry.Move | host/TunRegistry.hpp:37-38 | takes over every device and leaves the other registry empty |
| TunDevices.TunRegistry.Assign | host/TunRegistry.hpp:39-40 | destroys its own devices, takes over the other's, leaves the other empty |
| TunDevices.TunRegistry.Destroy | host/TunRegistry.hpp:21-24 | destroys every device in some order |
| TunDevices.TunRegistry.CreateDevice | host/TunRegistry.cpp:18-42 | registers the new device, destroying the one it replaces; leaks nothing when a call fails |
| TunDevices.TunRegistry.FindDevice | host/TunRegistry.cpp:44-52 | the registered device or none |
| TunDevices.TunRegistry.CloseDevice | host/TunRegistry.cpp:54-57 | destroys and forgets the device; true if and only if there was one |

## Left out

- GnuTLS, libev, libnl and the sockets (net/CryptoContext.cpp, net/UdpSocket.cpp, net/UdpLink.cpp, net/TunDevice.cpp, host/TunAdminContext.cpp): foreign code and I/O; their answers are parameters.
- Memory ownership of packets (captured or not) and of moved-from sessions: packets are immutable values here.
- EveryDataFrameIsAcknowledged: does not cover a `next.write` that throws (net/CryptoSession.cpp:164-168), after which a delivered frame goes unacknowledged until it is repeated; to the theorems about two endpoints such a write is a lost frame.
- TransmitQueue: does not cover a `next.write` that throws, after which the timer is left off; the theorems about two endpoints let timeouts happen whether or not it is armed.
- Self-assignment of a registry: what is left of its map is the standard library's affair.
- Frames shorter than a header given to a reliable channel by anything but another one: the code reads past their end.
- The transport callbacks `push`, `vec_push` and `pull_timeout`: they only forward or measure.
- Address families other than the two known ones in an archive: the code leaves the address uninitialised, so there is nothing to state.
- Listeners that call back into a session from `stateChanged`: the runs considered are those in which they do not.
- The Tunnel constructor and destructor: wiring of signals only.
- `IPAddress::parse`, `str` and the comparison operators of addresses: wrappers of C functions, and an order that is none.
- `strncpy` of the name template and `if_nametoindex` in `createDevice`: the resulting name and index are parameters.
- Exceptions as objects, `KeyFingerprint`, `SocketAddress`, `Link`, signals and the main program: only easy members.
