/** The packet program, the filter it is meant to implement, and when it does. */
module PortMirror {
  import opened Bytes
  import opened FlowKey

  const TC_ACT_OK := 0
  const MIRROR: u8 := 1
  const ETH_P_IP: u16 := 0x0800
  const ETH_P_IPV6: u16 := 0x86dd
  const IPPROTO_TCP: u8 := 6

  // ---------------------------------------------------------------- packets

  /** The fields the program reads; ports stay in network order. */
  datatype Headers = Headers(version: u8, src: seq<u8>, dst: seq<u8>, proto: u8, sport: seq<u8>, dport: seq<u8>)

  predicate Valid(h: Headers) {
    && ((h.version == 4 && |h.src| == |h.dst| == 4) || (h.version == 6 && |h.src| == |h.dst| == 16))
    && |h.sport| == 2 && |h.dport| == 2
  }

  /** The ports at `at`, when a whole TCP header, or the eight bytes of a UDP one, fits there. */
  function ParsePorts(data: seq<u8>, at: nat, version: u8, src: seq<u8>, dst: seq<u8>, proto: u8): Option<Headers> {
    if at + (if proto == IPPROTO_TCP then 20 else 8) > |data| then None
    else Some(Headers(version, src, dst, proto, data[at..at + 2], data[at + 2..at + 4]))
  }

  /** Ethernet, IPv4 with any `ihl` or IPv6, then the transport header; `None` passes unseen. */
  function ParsePacket(data: seq<u8>): (r: Option<Headers>)
    ensures r.Some? ==> Valid(r.value)
  {
    if |data| < 14 then None
    else if Word(data, 12) == ETH_P_IP then
      if |data| < 34 then None
      else ParsePorts(data, 14 + data[14] % 16 * 4, 4, data[26..30], data[30..34], data[23])
    else if Word(data, 12) == ETH_P_IPV6 then
      if |data| < 54 then None
      else ParsePorts(data, 54, 6, data[22..38], data[38..54], data[20])
    else None
  }

  /** What is read from any packet, in bytes: 08 00 with a whole IPv4 header or 86 dd with a whole IPv6 one, and
      behind it, at `ihl` words or 40 bytes, 20 bytes for TCP or 8 for anything else. */
  ghost predicate HeadersIn(data: seq<u8>, r: Option<Headers>) {
    var v4 := |data| >= 34 && data[12] == 0x08 && data[13] == 0x00;
    var v6 := |data| >= 54 && data[12] == 0x86 && data[13] == 0xdd;
    var at := if v4 then 14 + 4 * (data[14] % 16) else 54;
    && (r.Some? <==> (v4 || v6) && |data| >= at + (if data[if v4 then 23 else 20] == 6 then 20 else 8))
    && (r.Some? ==>
          && r.value.version == (if v4 then 4 else 6)
          && r.value.src == (if v4 then data[26..30] else data[22..38])
          && r.value.dst == (if v4 then data[30..34] else data[38..54])
          && r.value.proto == data[if v4 then 23 else 20]
          && r.value.sport == data[at..at + 2]
          && r.value.dport == data[at + 2..at + 4])
  }

  lemma PacketRead(data: seq<u8>)
    ensures HeadersIn(data, ParsePacket(data))
  {
  }

  /** A packet with given headers and, for IPv4, that many words of options. */
  function MakePacket(h: Headers, options: seq<u8>): seq<u8>
    requires Valid(h) && |options| <= 40
  {
    Zeros(12) +
    (if h.version == 4 then Be16(ETH_P_IP) + [0x45 + |options| / 4] + Zeros(8) + [h.proto] + Zeros(2)
     else Be16(ETH_P_IPV6) + [0x60] + Zeros(5) + [h.proto] + Zeros(1)) +
    h.src + h.dst + (if h.version == 4 then options else []) + h.sport + h.dport + Zeros(16)
  }

  lemma Packet4Exists(h: Headers, options: seq<u8>)
    requires Valid(h) && h.version == 4 && |options| <= 40 && |options| % 4 == 0
    ensures ParsePacket(MakePacket(h, options)) == Some(h)
  {
    var d, at := MakePacket(h, options), 34 + |options|;
    assert Word(d, 12) == ETH_P_IP && d[14] == 0x45 + |options| / 4 && d[23] == h.proto;
    assert d[26..30] == h.src && d[30..34] == h.dst && d[at..at + 2] == h.sport && d[at + 2..at + 4] == h.dport;
    hide MakePacket;
  }

  lemma Packet6Exists(h: Headers, options: seq<u8>)
    requires Valid(h) && h.version == 6 && |options| <= 40
    ensures ParsePacket(MakePacket(h, options)) == Some(h)
  {
    var d := MakePacket(h, options);
    assert Word(d, 12) == ETH_P_IPV6 && d[20] == h.proto;
    assert d[22..38] == h.src && d[38..54] == h.dst && d[54..56] == h.sport && d[56..58] == h.dport;
    hide MakePacket;
  }

  /** Every combination of fields is read from some packet, behind any IPv4 options. */
  lemma PacketExists(h: Headers, options: seq<u8>)
    requires Valid(h) && |options| <= 40 && |options| % 4 == 0
    ensures ParsePacket(MakePacket(h, options)) == Some(h)
  {
    hide ParsePacket, MakePacket;
    if h.version == 4 {
      Packet4Exists(h, options);
    } else {
      Packet6Exists(h, options);
    }
  }

  // ---------------------------------------------------------------- the program

  /** The address the program puts in the destination slot: for IPv6 it is the source. */
  function SlotAddress(h: Headers): seq<u8> {
    if h.version == 4 then h.dst else h.src
  }

  function Chosen(b: bool, x: seq<u8>): seq<u8> {
    if b then x else Zeros(|x|)
  }

  function ChosenSlots(s: bool, d: bool, sp: bool, dp: bool, p: bool, h: Headers): (k: Slots)
    requires Valid(h)
    ensures Sized(k)
  {
    Slots(Chosen(s, Pad16(h.src)), Chosen(d, Pad16(SlotAddress(h))), Chosen(sp, h.sport), Chosen(dp, h.dport),
          if p then h.proto else 0, h.version)
  }

  /** The fields whose bit is set, the others zero, and always the version. */
  function PacketKey(mask: bv8, h: Headers): seq<u8>
    requires Valid(h)
  {
    Packed(ChosenSlots(Has(mask, HASH_TYPE_SRC), Has(mask, HASH_TYPE_DST), Has(mask, HASH_TYPE_SPORT),
                       Has(mask, HASH_TYPE_DPORT), Has(mask, HASH_TYPE_PROTO), h))
  }

  /** The 38 key bytes of a packet: bit by bit its fields or zeros, except that bit 2 of an IPv6 packet puts
      the source into the destination slot; and always the version. */
  ghost predicate KeyOfPacket(mask: bv8, h: Headers, key: seq<u8>)
    requires Valid(h)
  {
    && |key| == 38
    && key[..16] == (if mask & 0x01 == 0 then Zeros(16) else if h.version == 4 then h.src + Zeros(12) else h.src)
    && key[16..32] == (if mask & 0x02 == 0 then Zeros(16) else if h.version == 4 then h.dst + Zeros(12) else h.src)
    && key[32..34] == (if mask & 0x08 == 0 then [0, 0] else h.sport)
    && key[34..36] == (if mask & 0x10 == 0 then [0, 0] else h.dport)
    && key[36] == (if mask & 0x04 == 0 then 0 else h.proto)
    && key[37] == h.version
  }

  lemma PacketKeyExactly(mask: bv8, h: Headers)
    requires Valid(h)
    ensures KeyOfPacket(mask, h, PacketKey(mask, h))
  {
    var k := ChosenSlots(Has(mask, HASH_TYPE_SRC), Has(mask, HASH_TYPE_DST), Has(mask, HASH_TYPE_SPORT),
                         Has(mask, HASH_TYPE_DPORT), Has(mask, HASH_TYPE_PROTO), h);
    SlotsInPlace(k);
    assert h.version == 6 ==> h.src + Zeros(0) == h.src;
    assert Zeros(2) == [0, 0];
    hide Packed;
  }

  /** The packet passes the program's test: there is no filter, or its masked key is in the map. */
  predicate Selects(mask: bv8, filter: map<seq<u8>, u8>, data: seq<u8>) {
    mask == 0 ||
    match ParsePacket(data)
    case None => false
    case Some(h) => PacketKey(mask, h) in filter && filter[PacketKey(mask, h)] == MIRROR
  }

  datatype Clone = Clone(ifindex: u32, data: seq<u8>)

  function ClonesOf(mask: bv8, filter: map<seq<u8>, u8>, mirrors: map<u32, u32>, tap: u32, data: seq<u8>): seq<Clone> {
    if Selects(mask, filter, data) && tap in mirrors then [Clone(mirrors[tap], data)] else []
  }

  function StreamClones(
    mask: bv8, filter: map<seq<u8>, u8>, mirrors: map<u32, u32>, tap: u32, packets: seq<seq<u8>>): seq<Clone>
  {
    if packets == [] then []
    else StreamClones(mask, filter, mirrors, tap, packets[..|packets| - 1]) +
         ClonesOf(mask, filter, mirrors, tap, packets[|packets| - 1])
  }

  lemma StreamSnoc(
    mask: bv8, filter: map<seq<u8>, u8>, mirrors: map<u32, u32>, tap: u32, packets: seq<seq<u8>>, i: nat)
    requires i < |packets|
    ensures StreamClones(mask, filter, mirrors, tap, packets[..i + 1]) ==
            StreamClones(mask, filter, mirrors, tap, packets[..i]) + ClonesOf(mask, filter, mirrors, tap, packets[i])
  {
    assert packets[..i + 1][..i] == packets[..i];
    hide ClonesOf;
  }

  /** One loaded copy of the program, with its maps and what it has handed to the mirror port. */
  class Program {
    const hashType: bv8
    const filter: map<seq<u8>, u8>
    const mirrors: map<u32, u32>
    var cloned: seq<Clone>

    /** What user space loads for one tap: one filter entry, and a mirror entry when attaching. */
    constructor (o: Opts, tap: u32, mirror: u32, attach: bool)
      ensures hashType == MaskOf(o) && filter == map[Layout(KeyOf(o)) := 1]
      ensures mirrors == (if attach then map[tap := mirror] else map[]) && cloned == []
    {
      var mask, key := Configure(o);
      hashType := mask;
      filter := map[key := MIRROR];
      mirrors := if attach then map[tap := mirror] else map[];
      cloned := [];
    }

    /** The masked key, built field by field over zeroes; a union write keeps the bytes behind it. */
    method BuildKey(h: Headers) returns (key: seq<u8>)
      requires Valid(h)
      ensures key == PacketKey(hashType, h)
      ensures KeyOfPacket(hashType, h, key)
    {
      PacketKeyExactly(hashType, h);
      hide Has, KeyOfPacket;
      var saddr, daddr := Zeros(16), Zeros(16);
      var sport, dport, proto := Zeros(2), Zeros(2), 0;
      if Has(hashType, HASH_TYPE_SRC) {
        saddr := if h.version == 4 then h.src + saddr[4..] else h.src;
        assert saddr == Pad16(h.src);
      }
      if Has(hashType, HASH_TYPE_DST) {
        daddr := if h.version == 4 then h.dst + daddr[4..] else h.src;
        assert daddr == Pad16(SlotAddress(h));
      }
      if Has(hashType, HASH_TYPE_PROTO) {
        proto := h.proto;
      }
      if Has(hashType, HASH_TYPE_SPORT) {
        sport := h.sport;
      }
      if Has(hashType, HASH_TYPE_DPORT) {
        dport := h.dport;
      }
      key := Packed(Slots(saddr, daddr, sport, dport, proto, h.version));
    }

    /** The header part of `port_mirror`; every read is behind its length test. */
    method ReadHeaders(data: seq<u8>) returns (r: Option<Headers>)
      ensures r == ParsePacket(data)
      ensures HeadersIn(data, r)
    {
      PacketRead(data);
      hide HeadersIn;
      if |data| < 14 {
        return None;
      }
      var proto, version, src, dst, transport: nat;
      var etherType := FromBe16(data[12], data[13]);
      if etherType == ETH_P_IP {
        if |data| < 14 + 20 {
          return None;
        }
        proto, transport := data[14 + 9], 14 + data[14] % 16 * 4;
        src, dst, version := data[26..30], data[30..34], 4;
      } else if etherType == ETH_P_IPV6 {
        if |data| < 14 + 40 {
          return None;
        }
        proto, transport := data[14 + 6], 14 + 40;
        src, dst, version := data[22..38], data[38..54], 6;
      } else {
        return None;
      }
      if |data| < transport + (if proto == IPPROTO_TCP then 20 else 8) {
        return None;
      }
      return Some(Headers(version, src, dst, proto,
                          data[transport..transport + 2], data[transport + 2..transport + 4]));
    }

    /** `port_mirror`. */
    method Handle(tap: u32, data: seq<u8>) returns (action: int)
      modifies this`cloned
      ensures action == 0
      ensures cloned == old(cloned) + ClonesOf(hashType, filter, mirrors, tap, data)
      ensures cloned == old(cloned) +
        (if Selects(hashType, filter, data) && tap in mirrors then [Clone(mirrors[tap], data)] else [])
    {
      hide PacketKey, ParsePacket;
      action := TC_ACT_OK;
      if hashType == 0 {
        if tap in mirrors {
          cloned := cloned + [Clone(mirrors[tap], data)];
        }
        return;
      }
      var h := ReadHeaders(data);
      if h.None? {
        return;
      }
      var key := BuildKey(h.value);
      if key in filter && filter[key] == MIRROR {
        if tap in mirrors {
          cloned := cloned + [Clone(mirrors[tap], data)];
        }
      }
    }

    /** A whole stream on one tap: every packet passes, and the mirror port gets, in order, those selected. */
    method HandleAll(tap: u32, packets: seq<seq<u8>>) returns (passed: seq<seq<u8>>)
      modifies this`cloned
      ensures passed == packets
      ensures cloned == old(cloned) + StreamClones(hashType, filter, mirrors, tap, packets)
    {
      hide ClonesOf, Selects;
      passed := [];
      for i := 0 to |packets|
        invariant passed == packets[..i]
        invariant cloned == old(cloned) + StreamClones(hashType, filter, mirrors, tap, packets[..i])
      {
        StreamSnoc(hashType, filter, mirrors, tap, packets, i);
        hide StreamClones;
        var action := Handle(tap, packets[i]);
        if action == TC_ACT_OK {
          passed := passed + [packets[i]];
        }
        assert packets[..i + 1] == packets[..i] + [packets[i]];
      }
      assert packets[..|packets|] == packets;
    }
  }

  // ---------------------------------------------------------------- what the lookup compares

  ghost predicate SlotMatches(o: Opts, h: Headers)
    requires Valid(h)
  {
    Pad16(SlotAddress(h)) == Pad16(Destination(o).octets)
  }

  /** What the single hash lookup amounts to. */
  ghost predicate LookupMatches(o: Opts, h: Headers)
    requires Valid(h)
  {
    && h.version == Version(o)
    && (IsSet(Source(o)) ==> h.src == Source(o).octets)
    && (IsSet(Destination(o)) ==> SlotMatches(o, h))
    && (SourcePort(o) != 0 ==> h.sport == Be16(SourcePort(o)))
    && (DestinationPort(o) != 0 ==> h.dport == Be16(DestinationPort(o)))
    && (Protocol(o) != 0 ==> h.proto == Protocol(o))
  }

  lemma PadInjective(a: seq<u8>, b: seq<u8>)
    requires |a| == |b| <= 16
    ensures Pad16(a) == Pad16(b) <==> a == b
  {
    assert Pad16(a)[..|a|] == a && Pad16(b)[..|b|] == b;
  }

  lemma UnsetPads(a: Ip)
    requires !IsSet(a)
    ensures Pad16(a.octets) == Zeros(16)
  {
  }

  lemma AddressField(a: Ip, x: seq<u8>)
    requires |x| <= 16
    ensures Chosen(IsSet(a), Pad16(x)) == Pad16(a.octets) <==> (IsSet(a) ==> Pad16(x) == Pad16(a.octets))
  {
    if !IsSet(a) {
      UnsetPads(a);
    }
  }

  lemma PortField(v: u16, x: seq<u8>)
    requires |x| == 2
    ensures Chosen(v != 0, x) == Be16(v) <==> (v != 0 ==> x == Be16(v))
  {
    if v == 0 {
      assert Be16(v) == [0, 0] && Zeros(2) == [0, 0];
    }
    hide Be16;
  }

  /** The packet's slots under the mask of `o`. */
  ghost function MaskedSlots(o: Opts, h: Headers): (k: Slots)
    requires Valid(h)
    ensures Sized(k)
  {
    ChosenSlots(IsSet(Source(o)), IsSet(Destination(o)), SourcePort(o) != 0, DestinationPort(o) != 0,
                Protocol(o) != 0, h)
  }

  lemma PacketKeyFields(o: Opts, h: Headers)
    requires Valid(h)
    ensures PacketKey(MaskOf(o), h) == Packed(MaskedSlots(o, h))
  {
    BitsApart(IsSet(Source(o)), IsSet(Destination(o)), SourcePort(o) != 0, DestinationPort(o) != 0, Protocol(o) != 0);
    hide MaskBits, Has, Packed, IsSet, Source, Destination, ChosenSlots, SourcePort, DestinationPort, Protocol;
  }

  lemma VersionLength(o: Opts, h: Headers)
    requires Valid(h) && h.version == Version(o)
    ensures |h.src| == |Source(o).octets|
  {
  }

  lemma SlotsExact(o: Opts, h: Headers)
    requires Valid(h)
    ensures MaskedSlots(o, h) == UserSlots(o) <==> LookupMatches(o, h)
  {
    hide Pad16, Chosen, IsSet, Source, Destination, Version, Be16, SourcePort, DestinationPort, Protocol, Zeros;
    var s, d := Source(o), Destination(o);
    AddressField(s, h.src);
    AddressField(d, SlotAddress(h));
    PortField(SourcePort(o), h.sport);
    PortField(DestinationPort(o), h.dport);
    if h.version == Version(o) {
      VersionLength(o, h);
      PadInjective(h.src, s.octets);
    }
  }

  /** The masked byte comparison of a whole key is the field-by-field comparison. */
  lemma LookupExact(o: Opts, h: Headers)
    requires Valid(h)
    ensures PacketKey(MaskOf(o), h) == Layout(KeyOf(o)) <==> LookupMatches(o, h)
  {
    hide *;
    PacketKeyFields(o, h);
    KeyBytes(o);
    PackedInjective(MaskedSlots(o, h), UserSlots(o));
    SlotsExact(o, h);
  }

  // ---------------------------------------------------------------- what the filter should mean

  /** An address option that is given and not zero is the packet's address `x`. */
  predicate AddressAgrees(a: Option<Ip>, version: u8, x: seq<u8>) {
    a.Some? && NonZero(a.value) ==> version == (if a.value.V4? then 4 else 6) && x == a.value.octets
  }

  predicate PortAgrees(p: Option<u16>, x: seq<u8>) {
    p.Some? && p.value != 0 ==> x == [p.value / 256, p.value % 256]
  }

  /** The wildcard filter: every option that is given and not zero equals the packet's field of that name. */
  predicate Wildcard(o: Opts, h: Headers) {
    && AddressAgrees(o.saddr, h.version, h.src)
    && AddressAgrees(o.daddr, h.version, h.dst)
    && PortAgrees(o.sport, h.sport)
    && PortAgrees(o.dport, h.dport)
    && (o.proto.Some? && o.proto.value != 0 ==> h.proto == o.proto.value)
  }

  predicate Agrees(a: Ip, version: u8, x: seq<u8>) {
    IsSet(a) ==> version == (if a.V4? then 4 else 6) && x == a.octets
  }

  /** The same over the options with their defaults filled in. */
  lemma WildcardMeans(o: Opts, h: Headers)
    ensures Wildcard(o, h) <==>
      && Agrees(Source(o), h.version, h.src)
      && Agrees(Destination(o), h.version, h.dst)
      && (SourcePort(o) != 0 ==> h.sport == Be16(SourcePort(o)))
      && (DestinationPort(o) != 0 ==> h.dport == Be16(DestinationPort(o)))
      && (Protocol(o) != 0 ==> h.proto == Protocol(o))
  {
    SetMeans(o.saddr);
    SetMeans(o.daddr);
    hide NonZero, IsSet;
  }

  /** A caller's test on the options alone. Without a destination, some source must be given. An IPv4
      destination goes with an IPv4 or absent source; next to an IPv6 source its zero extension must not be
      that very source. An IPv6 destination must stand next to a given IPv4 source and have a non-zero byte
      behind its fourth: then neither reading matches any packet. */
  predicate Faithful(o: Opts) {
    var s, d := Source(o), Destination(o);
    if !IsSet(d) then IsSet(s)
    else if d.V4? then s.V4? || (IsSet(s) && s.octets != Pad16(d.octets))
    else s.V4? && IsSet(s) && d.octets[4..] != Zeros(12)
  }

  lemma FaithfulMatches(o: Opts, h: Headers)
    requires Valid(h) && Faithful(o)
    ensures LookupMatches(o, h) <==> Wildcard(o, h)
  {
    var s, d := Source(o), Destination(o);
    WildcardMeans(o, h);
    hide Be16, Source, Destination, IsSet, Wildcard, SourcePort, DestinationPort, Protocol;
    if IsSet(d) && |SlotAddress(h)| == |d.octets| {
      PadInjective(SlotAddress(h), d.octets);
    }
    if d.V6? && h.version == 4 {
      PadTail(h.dst, d.octets);
    }
  }

  /** A padded IPv4 address fills a slot only with twelve zero bytes behind it. */
  lemma PadTail(a: seq<u8>, b: seq<u8>)
    requires |a| == 4 && |b| == 16
    ensures Pad16(a) == Pad16(b) <==> b == a + Zeros(12)
    ensures Pad16(a) == Pad16(b) ==> b[4..] == Zeros(12)
  {
    assert Pad16(b) == b && Pad16(a) == a + Zeros(12);
    assert (a + Zeros(12))[4..] == Zeros(12);
  }

  /** Headers with the configured ports and protocol. */
  function With(o: Opts, version: u8, src: seq<u8>, dst: seq<u8>): Headers {
    Headers(version, src, dst, Protocol(o), Be16(SourcePort(o)), Be16(DestinationPort(o)))
  }

  /** Headers on which the lookup and the wildcard filter disagree. */
  function Witness(o: Opts): Headers {
    var s, d := Source(o), Destination(o);
    if !IsSet(d) then
      if s.V4? then With(o, 6, Zeros(16), Zeros(16)) else With(o, 4, Zeros(4), Zeros(4))
    else if d.V4? then
      if IsSet(s) then With(o, 6, s.octets, Zeros(16)) else With(o, 4, Zeros(4), d.octets)
    else if s.V4? then
      if IsSet(s) then With(o, 4, s.octets, d.octets[..4]) else With(o, 6, Zeros(16), d.octets)
    else if !IsSet(s) then With(o, 6, Zeros(16), d.octets)
    else if s.octets != d.octets then With(o, 6, s.octets, d.octets)
    else With(o, 6, s.octets, Zeros(16))
  }

  lemma WitnessDisagrees(o: Opts)
    requires !Faithful(o)
    ensures Valid(Witness(o)) && LookupMatches(o, Witness(o)) != Wildcard(o, Witness(o))
  {
    var s, d := Source(o), Destination(o);
    WildcardMeans(o, Witness(o));
    hide Be16, Source, Destination, Wildcard, SourcePort, DestinationPort, Protocol;
    if s.V6? && d.V6? {
      PadInjective(s.octets, d.octets);
      PadInjective(Zeros(16), d.octets);
    }
    if s.V6? && d.V4? {
      PadSelf(s.octets);
    }
    if s.V4? && d.V6? {
      PadTail(d.octets[..4], d.octets);
      assert d.octets == d.octets[..4] + d.octets[4..];
    }
  }

  lemma PadSelf(a: seq<u8>)
    requires |a| == 16
    ensures Pad16(a) == a
  {
  }

  function FilterOf(o: Opts): map<seq<u8>, u8> {
    map[Layout(KeyOf(o)) := MIRROR]
  }

  /** With a mask, a packet is selected exactly when its headers fit and the field comparison holds. */
  lemma SelectsExact(o: Opts, data: seq<u8>)
    requires MaskOf(o) != 0
    ensures Selects(MaskOf(o), FilterOf(o), data) <==>
            ParsePacket(data).Some? && LookupMatches(o, ParsePacket(data).value)
  {
    hide ParsePacket, PacketKey, Layout, KeyOf, LookupMatches, MaskOf;
    if ParsePacket(data).Some? {
      LookupExact(o, ParsePacket(data).value);
    }
  }

  ghost predicate Intended(o: Opts, data: seq<u8>) {
    ParsePacket(data).Some? && Wildcard(o, ParsePacket(data).value)
  }

  /** The single masked lookup implements the wildcard filter, on every packet, exactly for the options
      that pass the test above. */
  lemma WildcardExactly(o: Opts)
    requires MaskOf(o) != 0
    ensures (forall data :: Selects(MaskOf(o), FilterOf(o), data) <==> Intended(o, data)) <==> Faithful(o)
  {
    hide ParsePacket, Selects, FilterOf, MaskOf, LookupMatches, Wildcard, Faithful, Witness;
    if Faithful(o) {
      forall data ensures Selects(MaskOf(o), FilterOf(o), data) <==> Intended(o, data) {
        SelectsExact(o, data);
        if ParsePacket(data).Some? {
          FaithfulMatches(o, ParsePacket(data).value);
        }
      }
    } else {
      WitnessDisagrees(o);
      var data := MakePacket(Witness(o), []);
      PacketExists(Witness(o), []);
      SelectsExact(o, data);
      assert Selects(MaskOf(o), FilterOf(o), data) != Intended(o, data);
    }
  }

  /** For an IPv4 filter, and for any filter without a destination, the lookup is the wildcard filter
      restricted to the filter's IP version. */
  lemma VersionKeyed(o: Opts, data: seq<u8>)
    requires MaskOf(o) != 0
    requires !IsSet(Destination(o)) || (Source(o).V4? && Destination(o).V4?)
    ensures Selects(MaskOf(o), FilterOf(o), data) <==>
            Intended(o, data) && ParsePacket(data).value.version == Version(o)
  {
    SelectsExact(o, data);
    hide ParsePacket, Selects, MaskOf, Be16, FilterOf, IsSet, Source, Destination, Wildcard, SourcePort,
      DestinationPort, Protocol;
    if ParsePacket(data).Some? {
      var h := ParsePacket(data).value;
      WildcardMeans(o, h);
      if h.version == 4 && Destination(o).V4? {
        PadInjective(h.dst, Destination(o).octets);
      }
    }
  }

  // ---------------------------------------------------------------- streams

  /** The selected packets, in order. */
  function Kept(mask: bv8, filter: map<seq<u8>, u8>, packets: seq<seq<u8>>): seq<seq<u8>> {
    if packets == [] then [] else
      var init, last := packets[..|packets| - 1], packets[|packets| - 1];
      Kept(mask, filter, init) + if Selects(mask, filter, last) then [last] else []
  }

  /** The positions of the selected packets. */
  ghost function Positions(mask: bv8, filter: map<seq<u8>, u8>, packets: seq<seq<u8>>): set<nat> {
    set i: nat | i < |packets| && Selects(mask, filter, packets[i])
  }

  lemma PositionsGrow(mask: bv8, filter: map<seq<u8>, u8>, packets: seq<seq<u8>>, last: seq<u8>)
    ensures var p, q := Positions(mask, filter, packets), Positions(mask, filter, packets + [last]);
      && |packets| !in p
      && q == if Selects(mask, filter, last) then p + {|packets|} else p
  {
    hide Selects;
    assert forall i :: 0 <= i < |packets| ==> (packets + [last])[i] == packets[i];
  }

  /** One packet is kept for each selected one: behind as many as are selected before it. */
  lemma {:induction false} KeptExactly(mask: bv8, filter: map<seq<u8>, u8>, packets: seq<seq<u8>>, i: nat)
    requires i < |packets| && Selects(mask, filter, packets[i])
    ensures var kept, before := Kept(mask, filter, packets), |Positions(mask, filter, packets[..i])|;
      && |kept| == |Positions(mask, filter, packets)|
      && before < |kept| && kept[before] == packets[i]
  {
    var init, last := packets[..|packets| - 1], packets[|packets| - 1];
    assert packets == init + [last];
    KeptCount(mask, filter, packets);
    KeptCount(mask, filter, init);
    hide Selects, Positions;
    if i < |init| {
      KeptExactly(mask, filter, init, i);
      assert init[..i] == packets[..i];
    }
  }

  lemma {:induction false} KeptCount(mask: bv8, filter: map<seq<u8>, u8>, packets: seq<seq<u8>>)
    ensures |Kept(mask, filter, packets)| == |Positions(mask, filter, packets)|
  {
    if packets != [] {
      var init, last := packets[..|packets| - 1], packets[|packets| - 1];
      assert packets == init + [last];
      KeptCount(mask, filter, init);
      PositionsGrow(mask, filter, init, last);
      hide Selects, Positions;
    }
  }

  function OnPort(ifindex: u32, packets: seq<seq<u8>>): seq<Clone> {
    seq(|packets|, i requires 0 <= i < |packets| => Clone(ifindex, packets[i]))
  }

  /** On an attached tap the mirror port receives the selected packets, all and only, in their order;
      on any other interface, or when nothing is attached, nothing. */
  lemma {:induction false} StreamExact(o: Opts, tap: u32, mirror: u32, on: u32, packets: seq<seq<u8>>)
    ensures StreamClones(MaskOf(o), FilterOf(o), map[tap := mirror], on, packets) ==
            if on == tap then OnPort(mirror, Kept(MaskOf(o), FilterOf(o), packets)) else []
    ensures StreamClones(MaskOf(o), FilterOf(o), map[], on, packets) == []
  {
    hide Selects, MaskOf, FilterOf;
    if packets != [] {
      StreamExact(o, tap, mirror, on, packets[..|packets| - 1]);
    }
  }

  /** Without any configured field the mirror port receives the whole stream, IP or not. */
  lemma {:induction false} NoFilterKeepsAll(filter: map<seq<u8>, u8>, packets: seq<seq<u8>>)
    ensures Kept(0, filter, packets) == packets
  {
    if packets != [] {
      NoFilterKeepsAll(filter, packets[..|packets| - 1]);
      assert packets == packets[..|packets| - 1] + [packets[|packets| - 1]];
    }
  }
}
