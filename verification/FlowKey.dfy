/** The 38-byte flow key as user space lays it out, on a little-endian host. */
module FlowKey {
  import opened Bytes

  // ---------------------------------------------------------------- integers in memory

  /** The `n` bytes an unsigned integer occupies in memory. */
  function LeBytes(x: nat, n: nat): (r: seq<u8>)
    ensures |r| == n
  {
    if n == 0 then [] else [x % 256] + LeBytes(x / 256, n - 1)
  }

  function LeValue(b: seq<u8>): nat {
    if b == [] then 0 else b[0] + 256 * LeValue(b[1..])
  }

  function BeValue(b: seq<u8>): nat {
    if b == [] then 0 else BeValue(b[..|b| - 1]) * 256 + b[|b| - 1]
  }

  /** `to_be` of an `n`-byte integer. */
  function ToBe(x: nat, n: nat): nat {
    BeValue(LeBytes(x, n))
  }

  function Reverse(b: seq<u8>): (r: seq<u8>)
    ensures |r| == |b|
  {
    if b == [] then [] else [b[|b| - 1]] + Reverse(b[..|b| - 1])
  }

  lemma SplitByte(q: nat, r: u8)
    ensures (q * 256 + r) / 256 == q && (q * 256 + r) % 256 == r
  {
  }

  lemma BeSnoc(b: seq<u8>, x: u8)
    ensures BeValue(b + [x]) == BeValue(b) * 256 + x
  {
    assert (b + [x])[..|b|] == b;
  }

  lemma LeStep(q: nat, r: u8, n: nat)
    ensures LeBytes(q * 256 + r, n + 1) == [r] + LeBytes(q, n)
  {
    SplitByte(q, r);
  }

  lemma {:induction false} LeOfBe(b: seq<u8>)
    ensures LeBytes(BeValue(b), |b|) == Reverse(b)
  {
    if b != [] {
      var init, last := b[..|b| - 1], b[|b| - 1];
      LeOfBe(init);
      assert BeValue(b) == BeValue(init) * 256 + last;
      assert Reverse(b) == [last] + Reverse(init);
      hide *;
      LeStep(BeValue(init), last, |init|);
    }
  }

  lemma {:induction false} ReverseCons(x: u8, b: seq<u8>)
    ensures Reverse([x] + b) == Reverse(b) + [x]
  {
    if b == [] {
      assert [x] + b == [x];
      assert [x][..0] == [];
    } else {
      ReverseCons(x, b[..|b| - 1]);
      assert ([x] + b)[..|b|] == [x] + b[..|b| - 1];
    }
  }

  lemma {:induction false} BeOfReverse(b: seq<u8>)
    ensures BeValue(Reverse(b)) == LeValue(b)
  {
    if b != [] {
      assert LeValue(b) == b[0] + 256 * LeValue(b[1..]);
      hide *;
      BeOfReverse(b[1..]);
      ReverseCons(b[0], b[1..]);
      assert b == [b[0]] + b[1..];
      BeSnoc(Reverse(b[1..]), b[0]);
    }
  }

  lemma {:induction false} LeRoundTrip(b: seq<u8>, n: nat)
    requires |b| <= n
    ensures LeBytes(LeValue(b), n) == b + Zeros(n - |b|)
  {
    if b == [] {
      LeOfZero(n);
    } else {
      assert LeValue(b) == LeValue(b[1..]) * 256 + b[0];
      hide *;
      LeRoundTrip(b[1..], n - 1);
      LeStep(LeValue(b[1..]), b[0], n - 1);
      assert b == [b[0]] + b[1..];
      assert [b[0]] + (b[1..] + Zeros(n - |b|)) == b + Zeros(n - |b|);
    }
  }

  lemma {:induction false} LeOfZero(n: nat)
    ensures LeBytes(0, n) == Zeros(n)
  {
    if n > 0 {
      LeOfZero(n - 1);
    }
  }

  /** A big-endian number converted with `to_be` and stored at width `w` is its octets, then zeros. */
  lemma NetworkOrder(b: seq<u8>, w: nat)
    requires |b| <= w
    ensures LeBytes(ToBe(BeValue(b), |b|), w) == b + Zeros(w - |b|)
  {
    LeOfBe(b);
    BeOfReverse(b);
    LeRoundTrip(b, w);
    hide *;
  }

  lemma {:induction false} ValueZero(b: seq<u8>)
    ensures LeValue(b) == 0 <==> b == Zeros(|b|)
  {
    if b != [] {
      ValueZero(b[1..]);
      assert b == [b[0]] + b[1..];
      assert Zeros(|b|)[1..] == Zeros(|b| - 1);
      if b[0] == 0 && b[1..] == Zeros(|b| - 1) {
        assert b == Zeros(|b|);
      }
    }
  }

  // ---------------------------------------------------------------- options

  datatype IpAddr = V4(octets: seq<u8>) | V6(octets: seq<u8>)

  type Ip = a: IpAddr | |a.octets| == (if a.V4? then 4 else 16) witness V4([0, 0, 0, 0])

  datatype Opts = Opts(saddr: Option<Ip>, daddr: Option<Ip>, sport: Option<u16>, dport: Option<u16>, proto: Option<u8>)

  const ANY: Ip := V4([0, 0, 0, 0])

  function Or<T>(o: Option<T>, default: T): T {
    match o
    case None => default
    case Some(x) => x
  }

  function Source(o: Opts): Ip { Or(o.saddr, ANY) }
  function Destination(o: Opts): Ip { Or(o.daddr, ANY) }
  function SourcePort(o: Opts): u16 { Or(o.sport, 0) }
  function DestinationPort(o: Opts): u16 { Or(o.dport, 0) }
  function Protocol(o: Opts): u8 { Or(o.proto, 0) }

  /** The IP version of a filter is that of its source address alone. */
  function Version(o: Opts): u8 {
    if Source(o).V4? then 4 else 6
  }

  /** An all-zero address, like an absent one, is not configured. */
  predicate IsSet(a: Ip) {
    a.octets != Zeros(|a.octets|)
  }

  // ---------------------------------------------------------------- the key

  /** The packed record handed to the map; addresses are 128-bit, ports 16-bit. */
  datatype Key = Key(saddr: nat, daddr: nat, sport: nat, dport: nat, proto: u8, ipVersion: u8)

  /** `ip_to_bytes`. */
  function IpToBits(a: Ip): nat {
    ToBe(BeValue(a.octets), |a.octets|)
  }

  function KeyOf(o: Opts): Key {
    Key(IpToBits(Source(o)), IpToBits(Destination(o)),
        ToBe(SourcePort(o), 2), ToBe(DestinationPort(o), 2), Protocol(o), Version(o))
  }

  /** The record's bytes. */
  function Layout(k: Key): seq<u8> {
    LeBytes(k.saddr, 16) + LeBytes(k.daddr, 16) + LeBytes(k.sport, 2) + LeBytes(k.dport, 2) + [k.proto, k.ipVersion]
  }

  /** An address in its 16-byte slot. */
  function Pad16(b: seq<u8>): (r: seq<u8>)
    requires |b| <= 16
    ensures |r| == 16
  {
    b + Zeros(16 - |b|)
  }

  /** Six fields side by side, as both programs order them. */
  datatype Slots = Slots(src: seq<u8>, dst: seq<u8>, sport: seq<u8>, dport: seq<u8>, proto: u8, version: u8)

  predicate Sized(k: Slots) {
    |k.src| == 16 && |k.dst| == 16 && |k.sport| == 2 && |k.dport| == 2
  }

  function Packed(k: Slots): seq<u8> {
    k.src + k.dst + k.sport + k.dport + [k.proto, k.version]
  }

  /** Byte equality of packed keys is field equality. */
  lemma PackedInjective(a: Slots, b: Slots)
    requires Sized(a) && Sized(b)
    ensures Packed(a) == Packed(b) <==> a == b
  {
    SlotsInPlace(a);
    SlotsInPlace(b);
  }

  lemma SlotsInPlace(k: Slots)
    requires Sized(k)
    ensures var x := Packed(k);
      && |x| == 38 && x[..16] == k.src && x[16..32] == k.dst && x[32..34] == k.sport && x[34..36] == k.dport
      && x[36] == k.proto && x[37] == k.version
  {
  }

  /** What user space puts in the slots: octets and ports in network order. */
  function UserSlots(o: Opts): (k: Slots)
    ensures Sized(k)
  {
    Slots(Pad16(Source(o).octets), Pad16(Destination(o).octets),
          Be16(SourcePort(o)), Be16(DestinationPort(o)), Protocol(o), Version(o))
  }

  lemma BeOfBe16(v: u16)
    ensures BeValue(Be16(v)) == v
  {
    var hi, lo := v / 256, v % 256;
    BeSnoc([], hi);
    BeSnoc([hi], lo);
    assert [] + [hi] == [hi] && [hi] + [lo] == Be16(v);
    assert BeValue([]) == 0;
    hide BeValue;
  }

  lemma PortOrder(v: u16)
    ensures LeBytes(ToBe(v, 2), 2) == Be16(v)
    ensures ToBe(v, 2) == 0 <==> v == 0
  {
    var b := Be16(v);
    assert b == Zeros(2) <==> v == 0;
    assert b + Zeros(0) == b;
    hide *;
    BeOfBe16(v);
    NetworkOrder(b, 2);
    ToBeIsLe(b);
    ValueZero(b);
  }

  lemma ToBeIsLe(b: seq<u8>)
    ensures ToBe(BeValue(b), |b|) == LeValue(b)
  {
    LeOfBe(b);
    BeOfReverse(b);
  }

  /** User space's bytes are the octets in network order. */
  lemma KeyBytes(o: Opts)
    ensures Layout(KeyOf(o)) == Packed(UserSlots(o))
  {
    NetworkOrder(Source(o).octets, 16);
    NetworkOrder(Destination(o).octets, 16);
    PortOrder(SourcePort(o));
    PortOrder(DestinationPort(o));
    hide LeBytes, ToBe, BeValue, Version, Source, Destination;
  }

  // ---------------------------------------------------------------- the mask

  const HASH_TYPE_SRC: bv8 := 0x01
  const HASH_TYPE_DST: bv8 := 0x02
  const HASH_TYPE_PROTO: bv8 := 0x04
  const HASH_TYPE_SPORT: bv8 := 0x08
  const HASH_TYPE_DPORT: bv8 := 0x10

  predicate Has(mask: bv8, bit: bv8) {
    mask & bit != 0
  }

  function Bit(b: bool, bit: bv8): bv8 {
    if b then bit else 0
  }

  function MaskBits(s: bool, d: bool, sp: bool, dp: bool, p: bool): bv8 {
    Bit(s, HASH_TYPE_SRC) | Bit(d, HASH_TYPE_DST) | Bit(sp, HASH_TYPE_SPORT) | Bit(dp, HASH_TYPE_DPORT)
    | Bit(p, HASH_TYPE_PROTO)
  }

  function MaskOf(o: Opts): bv8 {
    MaskBits(IsSet(Source(o)), IsSet(Destination(o)), SourcePort(o) != 0, DestinationPort(o) != 0, Protocol(o) != 0)
  }

  lemma BitsApart(s: bool, d: bool, sp: bool, dp: bool, p: bool)
    ensures var m := MaskBits(s, d, sp, dp, p);
      && Has(m, HASH_TYPE_SRC) == s && Has(m, HASH_TYPE_DST) == d && Has(m, HASH_TYPE_SPORT) == sp
      && Has(m, HASH_TYPE_DPORT) == dp && Has(m, HASH_TYPE_PROTO) == p
      && (m == 0 <==> !s && !d && !sp && !dp && !p)
  {
  }

  lemma AddressBits(a: Ip)
    ensures IpToBits(a) != 0 <==> IsSet(a)
  {
    ToBeIsLe(a.octets);
    ValueZero(a.octets);
    hide ToBe, BeValue, LeValue;
  }

  /** One `hash_type |= ...` per configured field. */
  method BuildMask(s: bool, d: bool, sp: bool, dp: bool, p: bool) returns (mask: bv8)
    ensures mask == MaskBits(s, d, sp, dp, p)
  {
    mask := 0;
    if s { mask := mask | HASH_TYPE_SRC; }
    if d { mask := mask | HASH_TYPE_DST; }
    if sp { mask := mask | HASH_TYPE_SPORT; }
    if dp { mask := mask | HASH_TYPE_DPORT; }
    if p { mask := mask | HASH_TYPE_PROTO; }
  }

  // ---------------------------------------------------------------- option by option

  predicate NonZero(a: Ip) {
    exists i :: 0 <= i < |a.octets| && a.octets[i] != 0
  }

  function AddressSlot(a: Option<Ip>): seq<u8> {
    match a
    case None => Zeros(16)
    case Some(ip) => ip.octets + Zeros(16 - |ip.octets|)
  }

  function PortSlot(p: Option<u16>): seq<u8> {
    match p
    case None => [0, 0]
    case Some(v) => [v / 256, v % 256]
  }

  /** A bit exactly for each option that is given and not zero. */
  ghost predicate MaskFor(o: Opts, mask: bv8) {
    && (mask & 0x01 != 0 <==> o.saddr.Some? && NonZero(o.saddr.value))
    && (mask & 0x02 != 0 <==> o.daddr.Some? && NonZero(o.daddr.value))
    && (mask & 0x04 != 0 <==> o.proto.Some? && o.proto.value != 0)
    && (mask & 0x08 != 0 <==> o.sport.Some? && o.sport.value != 0)
    && (mask & 0x10 != 0 <==> o.dport.Some? && o.dport.value != 0)
    && mask & 0xe0 == 0
  }

  /** 38 bytes: each option in its own slot in network order, and 6 exactly for an IPv6 source. */
  ghost predicate KeyFor(o: Opts, key: seq<u8>) {
    && |key| == 38
    && key[..16] == AddressSlot(o.saddr) && key[16..32] == AddressSlot(o.daddr)
    && key[32..34] == PortSlot(o.sport) && key[34..36] == PortSlot(o.dport)
    && key[36] == (if o.proto.Some? then o.proto.value else 0)
    && key[37] == (if o.saddr.Some? && o.saddr.value.V6? then 6 else 4)
  }

  lemma SetMeans(a: Option<Ip>)
    ensures IsSet(Or(a, ANY)) <==> a.Some? && NonZero(a.value)
  {
    var x := Or(a, ANY);
    if NonZero(x) {
      var i :| 0 <= i < |x.octets| && x.octets[i] != 0;
      assert Zeros(|x.octets|)[i] == 0;
    }
  }

  lemma MaskConfigured(o: Opts)
    ensures MaskFor(o, MaskOf(o))
  {
    SetMeans(o.saddr);
    SetMeans(o.daddr);
    hide NonZero, IsSet, MaskBits;
    var s, d := IsSet(Source(o)), IsSet(Destination(o));
    BitsApart(s, d, SourcePort(o) != 0, DestinationPort(o) != 0, Protocol(o) != 0);
    NoOtherBits(s, d, SourcePort(o) != 0, DestinationPort(o) != 0, Protocol(o) != 0);
  }

  lemma NoOtherBits(s: bool, d: bool, sp: bool, dp: bool, p: bool)
    ensures MaskBits(s, d, sp, dp, p) & 0xe0 == 0
  {
  }

  lemma SlotsConfigured(o: Opts)
    ensures var k := UserSlots(o);
      && k.src == AddressSlot(o.saddr) && k.dst == AddressSlot(o.daddr)
      && k.sport == PortSlot(o.sport) && k.dport == PortSlot(o.dport)
      && k.proto == (if o.proto.Some? then o.proto.value else 0)
      && k.version == (if o.saddr.Some? && o.saddr.value.V6? then 6 else 4)
  {
    assert [0, 0, 0, 0] + Zeros(12) == Zeros(16);
  }

  lemma KeyConfigured(o: Opts)
    ensures KeyFor(o, Layout(KeyOf(o)))
  {
    KeyBytes(o);
    SlotsInPlace(UserSlots(o));
    SlotsConfigured(o);
    hide Layout, KeyOf, UserSlots, Packed, AddressSlot, PortSlot;
  }

  /** The option handling of user space: one bit per configured field, and the key. */
  method Configure(o: Opts) returns (mask: bv8, key: seq<u8>)
    ensures mask == MaskOf(o)
    ensures key == Layout(KeyOf(o))
    ensures MaskFor(o, mask) && KeyFor(o, key)
  {
    MaskConfigured(o);
    KeyConfigured(o);
    hide ToBe, IpToBits, IsSet, LeBytes, MaskBits, Layout, MaskFor, KeyFor;
    var sip := Or(o.saddr, ANY);
    var dip := Or(o.daddr, ANY);
    var version := if sip.V4? then 4 else 6;
    var saddr := IpToBits(sip);
    var daddr := IpToBits(dip);
    var sport := ToBe(Or(o.sport, 0), 2);
    var dport := ToBe(Or(o.dport, 0), 2);
    var proto := Or(o.proto, 0);
    AddressBits(sip);
    AddressBits(dip);
    PortOrder(SourcePort(o));
    PortOrder(DestinationPort(o));
    mask := BuildMask(saddr != 0, daddr != 0, sport != 0, dport != 0, proto != 0);
    key := Layout(Key(saddr, daddr, sport, dport, proto, version));
  }
}
