# Verified models of three network tools

This project models, in Dafny, the protocol and packet logic of three tools of the repository, and proves
what they guarantee.

* **VLAN topology discovery** (`network/topology`). Every node broadcasts one probe per interface and VLAN,
  answers the probes it hears, and folds the peers it hears of into a map from (local interface, peer
  interface) to an ascending VLAN list. `Frame` is the frame layout, its builder and its parser; `VlanList`
  and `Topology` are the map; `VlanText` is the printed form; `Daemon` is one node with its queues and tasks;
  `Discovery` is the whole installation as a state machine over abstract messages; `Causality`,
  `Completeness`, `Termination` and `VlanNumbers` hold the results about its runs; `WireProtocol` is the same
  state machine over bytes and a simulation between the two, and `WireResults` carries the results down to
  the bytes.
* **LLDP parser** (`network/lldp`). `Tlv` holds the value parsers, `TlvBytes` what they make of any bytes,
  `Lldpdu` the walk over the payload and an encoder that follows section 8.4 of IEEE 802.1AB-2009, since the
  repository has none, and `TlvOrder` what becomes of the order of TLVs.
* **Port mirror** (`ebpf/portmirror`). `FlowKey` is user space's mask and packed key, `PortMirror` the packet
  program, the wildcard filter it is meant to be, and when the two agree.

`dafny verify dfyconfig.toml` checks everything.

## Conventions

* Machine integers are subset types of `int`; every truncation, shift and byte order of the code is written
  out. A Rust panic (slice or index out of range, `unwrap` of a packet view that does not fit, overflow of
  `end + 1` in a debug build) is a value: `None`, `Panic`, `Panicked` or `Overflow`.
* Names and texts are byte sequences; the lossy UTF-8 conversion is the identity on valid UTF-8.
* Frame sizes are those of Ethernet (14), the 802.1Q tag (4) and the ARP body (28, RFC 826); opcodes 3 and 4
  are the request and reply of RFC 903. A tag holds 12 bits of VLAN (section 9.6 of IEEE 802.1Q), the payload
  16.
* A protocol step is what one task does between two channel operations, or one action of the network; a
  receiver's two sends are two steps. The four networks of
  `Discovery.Network` differ in what they may do; all of them reorder freely. `State.log` is a history
  variable that no step reads.
* `Discovery.WellFormed` is what an installation provides: interface addresses are distinct and none is the
  broadcast address, and interface indices are distinct within a node. Nothing is assumed about the VLANs
  probed, about wires being two-way, or about names being distinct.
* `WireProtocol.NamesFit` says that no interface and host name together are longer than 206 bytes, 210 if only
  the untagged VLAN is probed (Linux allows 15 and 64). Only the results about lossless runs over bytes ask for
  it; on the other networks a sender's panic amounts to a frame that reaches no one.
* The packet program's key starts zeroed in all 38 bytes, and the host is little-endian.

## Findings

* A probed VLAN of 4096 or more, which the range reader accepts, is tagged with its low twelve bits but
  announced in full, so runs list it over links that carry another VLAN (`VlanNumbers.WideProbeListed`,
  `VlanNumbers.NumbersRealExactly`).
* The LLDP length's ninth bit weighs 512: a length n of 256 to 511 is read as n + 256
  (`Lldpdu.HeaderRoundTrip`, `Lldpdu.HeadersFoundExactly`, `Lldpdu.SingleRoundTripExactly`).
* A value shorter than its type's minimum is read from the TLVs behind it (`Tlv.LocalExactly`).
* A chassis MAC address is read one byte early; only 04:04:04:04:04:04 survives (`Tlv.ChassisMacShifted`).
* The documentation of the LLDP parser says that the order of TLVs is checked (`network/lldp/src/pdu.rs:58`,
  `network/lldp/src/pdu.rs:81`); the code does not check it, and goes on after End Of LLDPDU. The model
  follows the code: `TlvOrder.OrderUnchecked` gives two accepted payloads that are out of order,
  `TlvOrder.InSequenceExactly` and `TlvOrder.SequenceCheckedExactly` say for exactly which payloads the
  promise is kept, and `TlvOrder.PaddedInSequenceExactly` how much padding breaks the order.
* The packet program compares the configured IPv6 destination with the packet's source, and takes the
  filter's IP version from the source option alone; `PortMirror.WildcardExactly` says for exactly which
  options the filter is nevertheless the wildcard filter.

## Model

| member | source | states |
|---|---|---|
| `Completeness.QuiescentExact` | network/topology/src/main.rs:92-129 | at rest after any lossless run, in any order, p lists q on v exactly when v reaches p from q and q probed it, or p did and the probe reached q |
| `Completeness.QuiescentSymmetric` | network/topology/src/main.rs:54-129 | over two-way links both ends hold the same ascending list: the carried VLANs that either end probes |
| `Completeness.QuiescentUnique` | network/topology/src/main.rs:46-129 | any two lossless runs that come to rest leave every node with equal maps |
| `Completeness.NeverWrong` | network/topology/src/main.rs:54-129 | at every moment of a run that loses, repeats and reorders, each listed link is one of the installation and each listed VLAN is expected on it |
| `VlanNumbers.ListableExactly` | network/topology/src/main.rs:46-129 | some run over bridges that lose and repeat lists q on v at p exactly when v is expected there |
| `VlanNumbers.WideProbeListed` | network/topology/src/main.rs:31-44 | a node that probes v of 4096 or more is listed on v by a lossless run over one wire that carries v's low twelve bits, although no link carries v |
| `VlanNumbers.NumbersRealExactly` | network/topology/src/main.rs:31-44 | whatever the wires and the run, every tagged VLAN listed for a link is one that link carries, exactly when every node with an interface probes below 4096 only |
| `Completeness.ReceivedExpected` | network/topology/src/main.rs:100-110 | whatever arrives at a port was announced by a real interface and was expected there; through a reply, the port itself asked |
| `Completeness.StepKeepsRouted` | network/topology/src/main.rs:113-129 | everything in flight or received was due at that port |
| `Completeness.ProbeAdvances` | network/topology/src/main.rs:113-128 | a probe leaves its queue only to fly to every port it reaches |
| `Completeness.ReplyAdvances` | network/topology/src/main.rs:113-128 | a queued reply leaves only to fly to the asker, not as a request |
| `Completeness.FlightAdvances` | network/topology/src/main.rs:100-110 | a copy leaves the network only by becoming known at its port and, if a request, by having its answer queued |
| `Completeness.KnownStays` | network/topology/src/main.rs:54-76 | what a node knows of a link is never lost |
| `Completeness.StepKeepsPromise` | network/topology/src/main.rs:92-129 | every expected VLAN stays recorded, under way, or still to be asked for |
| `Causality.CausalSoundness` | network/topology/src/main.rs:92-129 | on any network each listed VLAN was received after a real interface sent it under its own names and address, because it probes it or because it answers an earlier broadcast probe of the addressee |
| `Causality.SentCaused` | network/topology/src/packet.rs:54-60 | a frame goes out as a request exactly for an own probe, and otherwise answers a request received through that interface |
| `Causality.StepKeepsSound` | network/topology/src/main.rs:46-129 | every queue entry, copy in flight and listed VLAN keeps its cause in the history, and lists stay ascending |
| `Causality.RunKeepsSound` | network/topology/src/main.rs:46-129 | so does every run, on any network |
| `Termination.StepLowers` | network/topology/src/main.rs:105-108 | queueing, sending, delivering, losing, passing on and recording each strictly lower one natural-number measure |
| `Termination.RunBounded` | network/topology/src/main.rs:92-129 | a run from any sound state is no longer than its measure |
| `Termination.NoReplyStorm` | network/topology/src/main.rs:105-108 | without duplication every run ends within 2 + N(3N + 4) steps per probe for N ports |
| `Termination.NotStuck` | network/topology/src/main.rs:92-129 | a state that is not at rest has a lossless step |
| `Termination.Settles` | network/topology/src/main.rs:92-129 | from every sound state a lossless run to rest exists |
| `WireProtocol.SaysParses` | network/topology/src/packet.rs:101-157 | the zero-extended receive buffer of a built frame, tagged or stripped, parses to the abstract message, for all names that fit: 206 bytes tagged, 210 untagged |
| `WireProtocol.StripSays` | network/topology/src/packet.rs:80-84 | stripping the tag keeps what a frame says, and leaves no further tag to strip |
| `WireProtocol.PanicsExactly` | network/topology/src/packet.rs:49-88 | the sender panics on an entry exactly when the names exceed 206 bytes together, 210 untagged |
| `WireProtocol.EmitSays` | network/topology/src/main.rs:115-127 | whenever the names of this entry fit, the emitted bytes say the abstract message, and a bridge that reads only their address and tag forwards them exactly where the message reaches |
| `WireProtocol.NeverPanics` | network/topology/src/main.rs:115-127 | with names that fit every VLAN probed somewhere, no sender panics, since no other VLAN is ever queued |
| `WireProtocol.PlainRefines` | network/topology/src/main.rs:92-129 | each byte-level step is the abstract step it amounts to (a panicking send reaches no one), allowed by the same network, and keeps the correspondence |
| `WireProtocol.WireRunRefines` | network/topology/src/main.rs:92-129 | every byte-level run is, minus tag stripping, an abstract run with the same node states; names that fit are asked for only when nothing may be lost |
| `WireResults.WireQuiescentExact` | network/topology/src/main.rs:92-129 | the exact final map, for frames built, forwarded, stripped and parsed as bytes |
| `WireResults.WireQuiescentSymmetric` | network/topology/src/main.rs:54-129 | over two-way links both ends hold the same ascending list, over bytes |
| `WireResults.WireQuiescentUnique` | network/topology/src/main.rs:46-129 | any two lossless byte-level runs that come to rest leave equal maps |
| `WireResults.PlainPossible` | network/topology/src/main.rs:113-129 | every lossless step of the protocol can be taken over bytes |
| `WireResults.WireSettles` | network/topology/src/main.rs:92-129 | from the end of any byte-level run on any network a lossless byte-level run to rest exists |
| `WireResults.WireNeverWrong` | network/topology/src/main.rs:54-129 | no wrong entry at any moment, over bytes, whatever the names and whoever panics |
| `WireResults.WireCausalSoundness` | network/topology/src/main.rs:92-129 | over bytes and on any network, each listed VLAN traces back to a configured probe through frames whose senders did not panic |
| `WireResults.WireRunBounded` | network/topology/src/main.rs:105-108 | a byte-level run without duplication is no longer than N + 1 times the measure plus the tags in flight |
| `WireResults.WireNoReplyStorm` | network/topology/src/main.rs:105-108 | from the start, all steps of such a run, tag stripping included, number at most (2 + N(3N + 4))(N + 1) per probe for N ports |
| `Frame.Build` | network/topology/src/packet.rs:19-91 | succeeds exactly when header, ARP body, names and VLAN fit, returns 46 bytes plus the names, 50 tagged, and leaves the buffer laid out as below |
| `Frame.ImageLaid` | network/topology/src/packet.rs:26-90 | byte for byte: addresses, 81 00 and the low twelve bits under the old priority bits, 80 f3, the eight ARP bytes with operation 3 or 4, both names behind their lengths, the VLAN, and every other byte as it was |
| `Frame.WriteHeader` | network/topology/src/packet.rs:26-46 | addresses, then the tag and its type exactly for a non-zero VLAN, keeping the priority bits and everything behind |
| `Frame.ArpConstants` | network/topology/src/packet.rs:49-60 | the ARP part is IPv4 over Ethernet, opcode 3 exactly for broadcast and 4 otherwise |
| `Frame.FitsIn256` | network/topology/src/packet.rs:68-90 | in 256 bytes the names fit exactly up to 206 bytes tagged, 210 untagged; then no length byte wraps and the bytes behind the frame are unchanged |
| `Frame.Parse` | network/topology/src/packet.rs:101-157 | computes, panics included, the parse that the next row pins down in bytes |
| `Frame.ParseReads` | network/topology/src/packet.rs:101-157 | of any buffer: ignored exactly when its EtherType, behind a tag if bytes 12 and 13 are 81 00, is not 80 f3; seen exactly when header, ARP part, names and VLAN are all there; a request exactly for operation 00 03; and address, names and VLAN are the bytes the two lengths delimit |
| `Frame.ParseTotal` | network/topology/src/packet.rs:101-157 | no buffer of at least 560 bytes makes the parser index out of range |
| `Frame.ParseBoundTight` | network/topology/src/packet.rs:127-142 | for every smaller length some buffer does |
| `Frame.FrameRoundTrip` | network/topology/src/packet.rs:19-157 | for any prior buffer and any bytes behind, parsing returns the sender's MAC, names and VLAN and a request flag for broadcast, exactly when both names are below 256 bytes; the tag on the wire is the low twelve bits |
| `Frame.StrippedRoundTrip` | network/topology/src/packet.rs:80-157 | the same after the network has removed the tag |
| `VlanList.Sort` | network/topology/src/main.rs:75 | a sorted permutation |
| `VlanList.DedupSorted` | network/topology/src/main.rs:75 | deduplicating a sorted vector makes it strictly ascending with the same members |
| `VlanList.PushAddsMember` | network/topology/src/main.rs:75 | push, sort and dedup of any vector give a strictly ascending one with exactly one more member |
| `Topology.NicAt` | network/topology/src/main.rs:56-59 | the first interface with the index, or none |
| `Topology.RecordUpdates` | network/topology/src/main.rs:56-76 | the key a message writes joins the first own interface with the index to the announced host, interface name and address, with index 0 and state up; its list is ascending and gains just the VLAN; no other key changes |
| `Topology.RecordAddsMember` | network/topology/src/main.rs:54-76 | one message adds exactly its VLAN under its key, or nothing for an unknown index |
| `Topology.RecordAllExact` | network/topology/src/main.rs:54-76 | after any messages the map holds exactly the VLANs heard per key, in ascending lists |
| `Topology.OrderIndependent` | network/topology/src/main.rs:54-76 | message sequences with the same members give the same map |
| `Topology.TidyUnique` | network/topology/src/main.rs:73-76 | ascending maps with the same members are equal |
| `Daemon.SeedRange` | network/topology/src/main.rs:176-183 | one broadcast probe per VLAN of an inclusive range |
| `Daemon.SeedNic` | network/topology/src/main.rs:175-184 | the probes of every range for one interface |
| `Daemon.SeedProbes` | network/topology/src/main.rs:174-185 | the probes of every interface, in order |
| `Daemon.SeedsExact` | network/topology/src/main.rs:136-185 | a seed is exactly a broadcast probe on an own interface index for a VLAN in some range |
| `Daemon.ProbedExactly` | network/topology/src/main.rs:136-142 | told nothing a node probes exactly 0 to 4094; told ranges, exactly those and 0 |
| `Daemon.ProbesInOrder` | network/topology/src/main.rs:136-142 | told nothing each VLAN from 1 to 4094 upwards and then 0, each once; told ranges, what they list and then 0 once more |
| `Daemon.ExpandInOrder` | network/topology/src/main.rs:175-176 | behind what the ranges before it give, a range gives its numbers upwards, each once |
| `Daemon.SeedsInOrder` | network/topology/src/main.rs:174-185 | the queue has one row per interface with one broadcast probe, without names, per number in turn, and nothing else |
| `Daemon.Daemon.constructor` | network/topology/src/main.rs:136-163 | a node starts with its seeds, empty queues and an empty map |
| `Daemon.Daemon.Seed` | network/topology/src/main.rs:177-182 | queues the next probe behind what is queued, and changes nothing else |
| `Daemon.Daemon.Receive` | network/topology/src/main.rs:100-110 | never panics on a 1024-byte buffer; what is seen is queued for the topology task and, exactly if a request, for a reply, both behind what is queued; what is ignored changes nothing |
| `Daemon.Daemon.SendNext` | network/topology/src/main.rs:115-128 | takes the first entry, and does with it what the next row says |
| `Daemon.EmitSends` | network/topology/src/main.rs:115-127 | an entry is dropped exactly for an unknown index; otherwise, through the first interface with it, the sender panics exactly when the names exceed 206 bytes, 210 untagged, or emits 256 bytes laid out over zeros |
| `Daemon.Daemon.UpdateTopology` | network/topology/src/main.rs:54-76 | takes the first message and updates the map under the key spelled out in `Topology.RecordUpdates`, and changes nothing else |
| `VlanText.ShowVlan` | network/topology/src/lib.rs:133-167 | prints the maximal runs, and overflows exactly when 65535 is followed by another element |
| `VlanText.AscendingNeverOverflows` | network/topology/src/lib.rs:147 | lists the map can hold never overflow |
| `VlanText.ShowReadRoundTrip` | network/topology/src/lib.rs:133-167 | reading the printed text back, ranges through the range reader, restores any list in its order |
| `VlanText.RunsMaximal` | network/topology/src/lib.rs:145-152 | no printed range could be joined with the next |
| `VlanText.RunsFewest` | network/topology/src/lib.rs:133-167 | no list of ranges with the same members is shorter than the printed one |
| `VlanText.DashedReads` | network/topology/src/main.rs:31-44 | two printed numbers with a dash are read as a range exactly when the second is not smaller, and a lone number is refused |
| `VlanText.VlanRangeExactly` | network/topology/src/main.rs:31-44 | over all texts: exactly two numbers with a dash between, the second not smaller, are a range |
| `VlanText.PieceShortest` | network/topology/src/lib.rs:157-161 | of all texts that read as a range the printed one is the one shortest: no leading zero, no sign, a dash only between different numbers |
| `VlanText.JoinSplits` | network/topology/src/lib.rs:153-161 | cut at its commas the printed text is the printed ranges in order |
| `VlanText.ParseDecimal` | network/topology/src/main.rs:35-36 | number reading inverts number printing |
| `VlanText.ParseU16Exactly` | network/topology/src/main.rs:35-36 | the number reader takes exactly the decimals of 16-bit numbers, behind an optional plus sign and any zeros |
| `VlanText.DecimalPlaces` | network/topology/src/lib.rs:157-161 | each printed place is the decimal digit of its weight, without leading zeros |
| `Tlv.LocalExactly` | network/lldp/src/pdu.rs:99-113 | a value parser depends on its own bytes alone exactly when the value meets its type's minimum, which is exactly when it can be parsed alone |
| `Tlv.MinimumLocal` | network/lldp/src/pdu.rs:99-113 | handed the whole rest of the payload, such a parser returns what its own bytes decode to |
| `Tlv.TooShortReadsOn` | network/lldp/src/tlv/chassis_id.rs:14-30 | a shorter value cannot be parsed alone, and there are following bytes that make the parser succeed |
| `Tlv.ChassisMacShifted` | network/lldp/src/tlv/chassis_id.rs:17 | the MAC read is the subtype and the first five octets; it is the one sent exactly for 04:04:04:04:04:04 |
| `Tlv.AddressReadBack` | network/lldp/src/tlv/management_address.rs:13-33 | chassis, port and management IP addresses of both families are read back |
| `Tlv.IdTextReadBack` | network/lldp/src/tlv/port_id.rs:14-38 | chassis and port texts are read back under their subtype |
| `Tlv.NumberTables` | network/lldp/src/tlv.rs:28-60 | type and subtype numbers read and written by the enumerations agree both ways, except where an unknown or reserved member shadows a known number |
| `Tlv.FieldReadBackExactly` | network/lldp/src/tlv/port_id.rs:14-38 | every field encoded as the standard lays it out is read back as meant, except chassis MAC addresses |
| `TlvBytes.ChassisExactly` | network/lldp/src/tlv/chassis_id.rs:14-38 | of any bytes: when the parser succeeds, and which bytes it takes for each subtype and address family, unknown ones included |
| `TlvBytes.PortExactly` | network/lldp/src/tlv/port_id.rs:14-38 | the same for port identifiers |
| `TlvBytes.ManagementExactly` | network/lldp/src/tlv/management_address.rs:13-33 | the same for management addresses, where an unknown family reads as 0.0.0.0 |
| `TlvBytes.FixedExactly` | network/lldp/src/tlv/capabilities.rs:26-36 | TTL and capabilities are the first two and four bytes whatever length is given; the End entry and organization-specific TLVs read nothing |
| `TlvBytes.TextsExactly` | network/lldp/src/pdu.rs:103-112 | texts and reserved types are the first bytes of the given length, or out of range |
| `TlvBytes.KnownNumbers` | network/lldp/src/tlv/chassis_id.rs:56-69 | the numbers of the known subtypes |
| `Lldpdu.FromBytes` | network/lldp/src/pdu.rs:85-120 | the cursor loop terminates and computes the specified walk, error and panic cases included |
| `Lldpdu.Parser` | network/lldp/src/pdu.rs:60-77 | refuses exactly the frames shorter than 14 bytes or without 88 cc at byte 12, and walks the payload of all others |
| `Lldpdu.WalkTiles` | network/lldp/src/pdu.rs:88-119 | on success the header extents tile the payload from 0, leave at most one byte, and there is one TLV per tile |
| `Lldpdu.WalkParses` | network/lldp/src/pdu.rs:99-117 | the i-th TLV is the one at the i-th tile |
| `Lldpdu.TilesUnique` | network/lldp/src/pdu.rs:90-117 | a payload has at most one tiling |
| `Lldpdu.WrongLengthExactly` | network/lldp/src/pdu.rs:95-97 | when reached TLVs meet their minimum there is no panic, and WrongLength exactly when the walk comes to a header that overruns |
| `Lldpdu.WalkExactly` | network/lldp/src/pdu.rs:88-119 | over all bytes: a panic exactly when some value come to is read out of range, otherwise WrongLength exactly when a header that overruns is left, and success exactly when at most one byte is |
| `Lldpdu.WalkSucceedsExactly` | network/lldp/src/pdu.rs:88-119 | then the walk succeeds exactly when the payload can be tiled |
| `Lldpdu.WalkComposes` | network/lldp/src/pdu.rs:85-120 | behind a tiled payload anything is walked as if alone: success, TLVs and errors |
| `Lldpdu.HeaderRoundTrip` | network/lldp/src/pdu.rs:91-93 | the type survives; a length below 256 does, and one of 256 to 511 is read 256 too large |
| `Lldpdu.EncodedWalks` | network/lldp/src/pdu.rs:85-120 | an encoded list of readable items is tiled and walks to its decoded items |
| `Lldpdu.EncodeRoundTrip` | network/lldp/src/pdu.rs:85-120 | one TLV per item, in order, of the kind the type table names, decoded from its own bytes, with anything behind walked on |
| `Lldpdu.HeadersFoundExactly` | network/lldp/src/pdu.rs:92-117 | the walk finds the encoder's headers exactly when all values are below 256 bytes |
| `Lldpdu.SingleRoundTripExactly` | network/lldp/src/pdu.rs:92-97 | a lone item is read back exactly when below 256 bytes, otherwise WrongLength |
| `Lldpdu.ZerosWalk` | network/lldp/src/pdu.rs:90-118 | m zero bytes walk to m / 2 End entries |
| `Lldpdu.PaddingHarmless` | network/lldp/src/pdu.rs:111-117 | padding a tiled payload adds m / 2 End entries and changes nothing before |
| `Lldpdu.FrameReadBack` | network/lldp/src/pdu.rs:60-77 | a padded Ethernet frame around an encoded list is recognised and read back |
| `Lldpdu.FieldsReadBackExactly` | network/lldp/src/pdu.rs:60-120 | a padded frame with any list of fields is read back as what they mean, in order, exactly when none is a chassis MAC address other than 04:04:04:04:04:04 |
| `TlvOrder.WalkKinds` | network/lldp/src/pdu.rs:92-113 | each parsed TLV is of the kind its own header names |
| `TlvOrder.InSequenceExactly` | network/lldp/src/pdu.rs:79-120 | of an accepted payload, the TLVs are in the standard's sequence exactly when the header types along the tiling are |
| `TlvOrder.SequenceCheckedExactly` | network/lldp/src/pdu.rs:79-120 | acceptance depends on extents alone, and the documented check holds of exactly the payloads that cannot be tiled or whose headers are in sequence |
| `TlvOrder.PartsExchange` | network/lldp/src/pdu.rs:85-120 | exchanging two tiled parts anywhere exchanges their TLVs and changes neither success nor error |
| `TlvOrder.PaddedInSequenceExactly` | network/lldp/src/pdu.rs:90-117 | zero padding keeps the sequence exactly when it adds at most one End entry, and none behind one that is there |
| `TlvOrder.OrderUnchecked` | network/lldp/src/pdu.rs:79-81 | the empty payload, and one with a TTL behind End Of LLDPDU, are accepted |
| `FlowKey.NetworkOrder` | ebpf/portmirror/src/main.rs:95-100 | on a little-endian host a converted address lies in memory as its octets followed by zeros |
| `FlowKey.PortOrder` | ebpf/portmirror/src/main.rs:122-123 | a converted port lies in memory in network order, and is zero exactly for port 0 |
| `FlowKey.KeyBytes` | ebpf/portmirror/src/main.rs:138-147 | user space's record is, byte for byte, the packed slots in network order |
| `FlowKey.PackedInjective` | ebpf/portmirror/src/bpf/portmirror.bpf.c:25-38 | equality of the 38 bytes is equality of the six fields |
| `FlowKey.AddressBits` | ebpf/portmirror/src/main.rs:128-129 | the number tested against zero is zero exactly for an all-zero address |
| `FlowKey.BitsApart` | ebpf/portmirror/src/bpf/portmirror.bpf.c:145-164 | each mask bit tells exactly its field, and the mask is zero exactly when nothing is configured |
| `FlowKey.BuildMask` | ebpf/portmirror/src/main.rs:128-132 | one bit per configured field |
| `FlowKey.Configure` | ebpf/portmirror/src/main.rs:117-147 | computes the mask and the key of the next two rows |
| `FlowKey.MaskConfigured` | ebpf/portmirror/src/main.rs:128-132 | bits 1, 2, 4, 8 and 16 are set exactly when saddr, daddr, proto, sport and dport are given and not zero, and no other bit is |
| `FlowKey.KeyConfigured` | ebpf/portmirror/src/main.rs:117-147 | the 38 bytes hold saddr, daddr, sport, dport and proto in their own slots in network order, zeros for what is absent, and 6 exactly for an IPv6 source |
| `PortMirror.Program.constructor` | ebpf/portmirror/src/main.rs:134-186 | one filter entry, and a mirror entry for the tap when attaching |
| `PortMirror.Program.ReadHeaders` | ebpf/portmirror/src/bpf/portmirror.bpf.c:72-126 | reads inside the packet only, for any `ihl`, and computes what the next row pins down in bytes |
| `PortMirror.PacketRead` | ebpf/portmirror/src/bpf/portmirror.bpf.c:72-126 | of any packet: headers are read exactly when the EtherType is 08 00 or 86 dd, the fixed IP header fits, and 20 bytes for TCP or 8 for anything else follow at the transport offset; and every field is its slice of the packet |
| `PortMirror.Program.BuildKey` | ebpf/portmirror/src/bpf/portmirror.bpf.c:141-164 | computes the key of the next row |
| `PortMirror.PacketKeyExactly` | ebpf/portmirror/src/bpf/portmirror.bpf.c:141-164 | 38 bytes: for each mask bit that field in its slot, else zeros, the IPv6 source in place of the destination, and always the version |
| `PortMirror.Program.Handle` | ebpf/portmirror/src/bpf/portmirror.bpf.c:58-196 | always passes the packet, and clones it once, to the tap's mirror, exactly when selected |
| `PortMirror.Program.HandleAll` | ebpf/portmirror/src/bpf/portmirror.bpf.c:58-196 | over any packet sequence all packets pass in order and the clones are appended in order |
| `PortMirror.PacketExists` | ebpf/portmirror/src/bpf/portmirror.bpf.c:72-126 | every combination of fields is read from some packet, behind any IPv4 options |
| `PortMirror.LookupExact` | ebpf/portmirror/src/bpf/portmirror.bpf.c:141-182 | the masked packet key equals the stored key exactly when version and configured fields agree, the destination slot holding the source for IPv6 |
| `PortMirror.SelectsExact` | ebpf/portmirror/src/bpf/portmirror.bpf.c:64-182 | with a mask, a packet is selected exactly when its headers fit and that comparison holds |
| `PortMirror.FaithfulMatches` | ebpf/portmirror/src/bpf/portmirror.bpf.c:141-182 | for options that pass the test the lookup is the wildcard filter |
| `PortMirror.WitnessDisagrees` | ebpf/portmirror/src/bpf/portmirror.bpf.c:152-158 | for all others there are headers on which they differ |
| `PortMirror.WildcardExactly` | ebpf/portmirror/src/main.rs:117-154 | the program implements, on every packet, the filter that compares each option given and not zero with the field of that name, exactly for the options that pass the test |
| `PortMirror.VersionKeyed` | ebpf/portmirror/src/main.rs:119-154 | for IPv4 filters and filters without destination it is the wildcard filter restricted to the filter's IP version |
| `PortMirror.StreamExact` | ebpf/portmirror/src/bpf/portmirror.bpf.c:181-187 | the mirror port of an attached tap receives exactly the selected subsequence; other interfaces, and taps not attached, nothing |
| `PortMirror.KeptExactly` | ebpf/portmirror/src/bpf/portmirror.bpf.c:181-187 | that subsequence holds each selected packet once, behind as many as are selected before it, and no other |
| `PortMirror.NoFilterKeepsAll` | ebpf/portmirror/src/bpf/portmirror.bpf.c:64-69 | without a configured field every packet is selected |

## Left out

- Sockets, the tokio runtime, interface and host name discovery, screen drawing and the 300 ms redraw delay: calls into the system with no effect on the map.
- Interleavings finer than one channel or socket operation: between taking an entry from a queue and acting on it a task touches nothing shared.
- Nodes whose receivers are not yet bound when others start: their missed frames are losses, which the lossy networks cover and the lossless one excludes.
- What else dies with a sender task that panics: the real node sends nothing more, its receivers stop at the next request and its seeding loop ends the process, while the runs over bytes let the node go on. Those behaviours are among the modelled ones, as nodes that take no more turns and frames that are lost, so the results for networks that lose cover them.
- Conversion of malformed UTF-8 in names and texts, which would replace bytes.
- Release builds of the printer, where 65535 + 1 wraps to 0 instead of panicking.
- The packet log lines, the tc hooks and their detaching, program loading, and a failing clone: system calls without logic.
- The values of organization-specific TLVs, which the parser drops, and the enumeration of capability bits, which nothing reads.
- The other tools of the repository (`erspan`, `xdpdump`, `funcprobe`, `p2p`, `load_balancer`, `proxy`, `echoserver`, `forwarder`, `csvmerge`, the foreign-function samples and the web front end): thin uses of libraries that would add only easy members.
