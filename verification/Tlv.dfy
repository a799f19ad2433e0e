/** The value parsers of the LLDP TLVs. `None` stands for an index out of range. */
module Tlv {
  import opened Bytes

  // ---------------------------------------------------------------- data

  datatype TlvType =
    | EndOfLldpduType | ChassisIdType | PortIdType | TtlType | PortDescriptionType | SystemNameType
    | SystemDescriptionType | SystemCapabilitiesType | ManagementAddressType | OrganizationSpecificType
    | ReservedType(n: u8)

  datatype ChassisSubtype =
    | Chassis | ChassisInterfaceAlias | ChassisPort | ChassisMac | ChassisNetworkAddress
    | ChassisInterfaceName | ChassisLocal | ChassisUnknown(n: u8)

  datatype PortSubtype =
    | PortInterfaceAlias | PortComponent | PortMac | PortNetworkAddress
    | PortInterfaceName | PortCircuitId | PortLocal | PortUnknown(n: u8)

  datatype IpAddr = V4(octets: seq<u8>) | V6(octets: seq<u8>)
  datatype IdValue = MacValue(mac: seq<u8>) | IpValue(ip: IpAddr) | StrValue(text: seq<u8>)

  datatype Tlv =
    | ChassisId(len: u16, chassis: ChassisSubtype, id: IdValue)
    | PortId(len: u16, port: PortSubtype, id: IdValue)
    | Ttl(len: u16, seconds: u16)
    | PortDescription(len: u16, text: seq<u8>)
    | SystemName(len: u16, text: seq<u8>)
    | SystemDescription(len: u16, text: seq<u8>)
    | Capabilities(len: u16, caps: u16, enabled: u16)
    | ManagementAddress(len: u16, address: IpAddr)
    | OrganizationSpecific(len: u16)
    | Reserved(kind: u8, len: u16, value: seq<u8>)
    | EndOfPdu

  function TypeOf(n: u8): TlvType {
    match n
    case 0 => EndOfLldpduType
    case 1 => ChassisIdType
    case 2 => PortIdType
    case 3 => TtlType
    case 4 => PortDescriptionType
    case 5 => SystemNameType
    case 6 => SystemDescriptionType
    case 7 => SystemCapabilitiesType
    case 8 => ManagementAddressType
    case 127 => OrganizationSpecificType
    case _ => ReservedType(n)
  }

  function ChassisSubtypeOf(n: u8): ChassisSubtype {
    match n
    case 1 => Chassis
    case 2 => ChassisInterfaceAlias
    case 3 => ChassisPort
    case 4 => ChassisMac
    case 5 => ChassisNetworkAddress
    case 6 => ChassisInterfaceName
    case 7 => ChassisLocal
    case _ => ChassisUnknown(n)
  }

  function PortSubtypeOf(n: u8): PortSubtype {
    match n
    case 1 => PortInterfaceAlias
    case 2 => PortComponent
    case 3 => PortMac
    case 4 => PortNetworkAddress
    case 5 => PortInterfaceName
    case 6 => PortCircuitId
    case 7 => PortLocal
    case _ => PortUnknown(n)
  }

  // The numbers the enumerations give their members.

  function TypeNumber(t: TlvType): u8 {
    match t
    case EndOfLldpduType => 0
    case ChassisIdType => 1
    case PortIdType => 2
    case TtlType => 3
    case PortDescriptionType => 4
    case SystemNameType => 5
    case SystemDescriptionType => 6
    case SystemCapabilitiesType => 7
    case ManagementAddressType => 8
    case OrganizationSpecificType => 127
    case ReservedType(n) => n
  }

  function ChassisNumber(t: ChassisSubtype): u8 {
    match t
    case Chassis => 1
    case ChassisInterfaceAlias => 2
    case ChassisPort => 3
    case ChassisMac => 4
    case ChassisNetworkAddress => 5
    case ChassisInterfaceName => 6
    case ChassisLocal => 7
    case ChassisUnknown(n) => n
  }

  function PortNumber(t: PortSubtype): u8 {
    match t
    case PortInterfaceAlias => 1
    case PortComponent => 2
    case PortMac => 3
    case PortNetworkAddress => 4
    case PortInterfaceName => 5
    case PortCircuitId => 6
    case PortLocal => 7
    case PortUnknown(n) => n
  }

  /** Reading a number and writing it back agree, and so does the other way round wherever a member is not
      an unknown or reserved one that shadows a known number. */
  lemma NumberTables(n: u8, t: TlvType, ch: ChassisSubtype, po: PortSubtype)
    ensures TypeNumber(TypeOf(n)) == n && ChassisNumber(ChassisSubtypeOf(n)) == n && PortNumber(PortSubtypeOf(n)) == n
    ensures TypeOf(TypeNumber(t)) == t <==> (t.ReservedType? ==> 8 < t.n && t.n != 127)
    ensures ChassisSubtypeOf(ChassisNumber(ch)) == ch <==> (ch.ChassisUnknown? ==> ch.n == 0 || ch.n > 7)
    ensures PortSubtypeOf(PortNumber(po)) == po <==> (po.PortUnknown? ==> po.n == 0 || po.n > 7)
  {
  }

  // ---------------------------------------------------------------- parsers

  /** `value[lo..hi]`, with the bounds check of a Rust slice. */
  function Slice(value: seq<u8>, lo: nat, hi: nat): Option<seq<u8>> {
    if lo <= hi <= |value| then Some(value[lo..hi]) else None
  }

  function AsText(s: Option<seq<u8>>): Option<IdValue> {
    match s
    case None => None
    case Some(x) => Some(StrValue(x))
  }

  function AsMac(s: Option<seq<u8>>): Option<IdValue> {
    match s
    case None => None
    case Some(x) => Some(MacValue(x))
  }

  function AsIp(s: Option<seq<u8>>): Option<IpAddr> {
    match s
    case None => None
    case Some(x) => Some(if |x| == 4 then V4(x) else V6(x))
  }

  /** The network-address branch shared by chassis and port identifiers. */
  function ParseNetworkId(len: u16, value: seq<u8>): Option<IdValue> {
    if |value| < 2 then None
    else if value[1] == 1 || value[1] == 2 then
      match AsIp(Slice(value, 2, if value[1] == 1 then 6 else 18))
      case None => None
      case Some(ip) => Some(IpValue(ip))
    else AsText(Slice(value, 2, len))
  }

  /** A chassis address is taken from offset 0, subtype byte included. */
  function ParseChassisId(len: u16, value: seq<u8>): Option<Tlv> {
    if |value| < 1 then None else
      var subtype := ChassisSubtypeOf(value[0]);
      var id := match subtype
        case ChassisMac => AsMac(Slice(value, 0, 6))
        case ChassisNetworkAddress => ParseNetworkId(len, value)
        case _ => AsText(Slice(value, 1, len));
      match id
      case None => None
      case Some(x) => Some(ChassisId(len, subtype, x))
  }

  /** A port address is taken from offset 1. */
  function ParsePortId(len: u16, value: seq<u8>): Option<Tlv> {
    if |value| < 1 then None else
      var subtype := PortSubtypeOf(value[0]);
      var id := match subtype
        case PortMac => AsMac(Slice(value, 1, 7))
        case PortNetworkAddress => ParseNetworkId(len, value)
        case _ => AsText(Slice(value, 1, len));
      match id
      case None => None
      case Some(x) => Some(PortId(len, subtype, x))
  }

  function ParseManagementAddress(len: u16, value: seq<u8>): Option<Tlv> {
    if |value| < 2 then None
    else if value[1] == 1 || value[1] == 2 then
      match AsIp(Slice(value, 2, if value[1] == 1 then 6 else 18))
      case None => None
      case Some(ip) => Some(ManagementAddress(len, ip))
    else Some(ManagementAddress(len, V4([0, 0, 0, 0])))
  }

  /** The dispatch of the walk; `value` is the whole rest of the payload. */
  function ParseValue(t: TlvType, len: u16, value: seq<u8>): Option<Tlv> {
    match t
    case EndOfLldpduType => Some(EndOfPdu)
    case ChassisIdType => ParseChassisId(len, value)
    case PortIdType => ParsePortId(len, value)
    case TtlType => if |value| < 2 then None else Some(Ttl(2, Word(value, 0)))
    case PortDescriptionType => if |value| < len then None else Some(PortDescription(len, value[..len]))
    case SystemNameType => if |value| < len then None else Some(SystemName(len, value[..len]))
    case SystemDescriptionType => if |value| < len then None else Some(SystemDescription(len, value[..len]))
    case SystemCapabilitiesType => if |value| < 4 then None else Some(Capabilities(4, Word(value, 0), Word(value, 2)))
    case ManagementAddressType => ParseManagementAddress(len, value)
    case OrganizationSpecificType => Some(OrganizationSpecific(len))
    case ReservedType(n) => if |value| < len then None else Some(Reserved(n, len, value[..len]))
  }

  // ---------------------------------------------------------------- locality

  /** The bytes an address family needs behind the two leading ones; 0 for an unknown family. */
  function FamilyLength(family: u8): nat {
    if family == 1 then 4 else if family == 2 then 16 else 0
  }

  /** The shortest value of each type that its parser can read on its own. */
  predicate MeetsMinimum(t: TlvType, v: seq<u8>) {
    match t
    case ChassisIdType =>
      |v| >= 1 && (v[0] == 4 ==> |v| >= 6) && (v[0] == 5 ==> |v| >= 2 && |v| >= 2 + FamilyLength(v[1]))
    case PortIdType =>
      |v| >= 1 && (v[0] == 3 ==> |v| >= 7) && (v[0] == 4 ==> |v| >= 2 && |v| >= 2 + FamilyLength(v[1]))
    case TtlType => |v| >= 2
    case SystemCapabilitiesType => |v| >= 4
    case ManagementAddressType => |v| >= 2 && |v| >= 2 + FamilyLength(v[1])
    case _ => true
  }

  type Value = v: seq<u8> | |v| < 0x1_0000

  /** The value decoded from its own bytes alone. */
  function Decode(t: TlvType, v: Value): Option<Tlv> {
    ParseValue(t, |v|, v)
  }

  /** The outcome does not depend on what follows the value. */
  ghost predicate Local(t: TlvType, v: Value) {
    forall rest :: ParseValue(t, |v|, v + rest) == Decode(t, v)
  }

  lemma SliceLocal(v: seq<u8>, rest: seq<u8>, lo: nat, hi: nat)
    requires hi <= |v|
    ensures Slice(v + rest, lo, hi) == Slice(v, lo, hi)
  {
    if lo <= hi {
      assert (v + rest)[lo..hi] == v[lo..hi];
    }
  }

  lemma IdsLocal(v: Value, rest: seq<u8>)
    ensures MeetsMinimum(ChassisIdType, v) ==> ParseChassisId(|v|, v + rest) == ParseChassisId(|v|, v)
    ensures MeetsMinimum(PortIdType, v) ==> ParsePortId(|v|, v + rest) == ParsePortId(|v|, v)
    ensures MeetsMinimum(ManagementAddressType, v) ==>
              ParseManagementAddress(|v|, v + rest) == ParseManagementAddress(|v|, v)
  {
    hide Slice, AsIp, AsMac, AsText;
    forall lo, hi: nat | hi <= |v| ensures Slice(v + rest, lo, hi) == Slice(v, lo, hi) {
      SliceLocal(v, rest, lo, hi);
    }
  }

  lemma MinimumLocal(t: TlvType, v: Value, rest: seq<u8>)
    requires MeetsMinimum(t, v)
    ensures ParseValue(t, |v|, v + rest) == Decode(t, v) && Decode(t, v).Some?
  {
    IdsLocal(v, rest);
    assert (v + rest)[..|v|] == v;
    assert v[..|v|] == v;
    DecodesAlone(t, v);
    hide ParseChassisId, ParsePortId, ParseManagementAddress;
  }

  lemma DecodesAlone(t: TlvType, v: Value)
    requires MeetsMinimum(t, v)
    ensures Decode(t, v).Some?
  {
  }

  /** Bytes after a value that is too short which make its parser succeed. */
  function Completion(t: TlvType, v: Value): seq<u8> {
    if |v| == 0 && t == ChassisIdType then [4] + Zeros(5)
    else if |v| == 0 && t == PortIdType then [3] + Zeros(6)
    else if |v| == 1 && (t == ChassisIdType || t == PortIdType) then [1] + Zeros(18)
    else if |v| == 0 then [0, 1] + Zeros(18)
    else [1] + Zeros(18)
  }

  lemma TooShortReadsOn(t: TlvType, v: Value)
    requires !MeetsMinimum(t, v)
    ensures Decode(t, v).None? && ParseValue(t, |v|, v + Completion(t, v)).Some?
  {
  }

  /** A value is parsed from its own bytes exactly when it meets its type's minimum; a shorter one is
      read from the bytes of the TLVs that follow, or out of range when there are none. */
  lemma LocalExactly(t: TlvType, v: Value)
    ensures Local(t, v) <==> MeetsMinimum(t, v)
    ensures MeetsMinimum(t, v) <==> Decode(t, v).Some?
  {
    hide ParseValue, MeetsMinimum, Completion;
    if MeetsMinimum(t, v) {
      forall rest ensures ParseValue(t, |v|, v + rest) == Decode(t, v) {
        MinimumLocal(t, v, rest);
      }
      DecodesAlone(t, v);
    } else {
      TooShortReadsOn(t, v);
    }
  }

  // ---------------------------------------------------------------- fields

  predicate IsAddress(ip: IpAddr) {
    |ip.octets| == if ip.V4? then 4 else 16
  }

  /** What a sender means to say; the texts stand for every subtype without an address. */
  datatype Field =
    | ChassisMacField(mac: seq<u8>)
    | ChassisIpField(ip: IpAddr)
    | ChassisTextField(chassis: ChassisSubtype, text: seq<u8>)
    | PortMacField(mac: seq<u8>)
    | PortIpField(ip: IpAddr)
    | PortTextField(port: PortSubtype, text: seq<u8>)
    | TtlField(seconds: u16)
    | PortDescriptionField(text: seq<u8>)
    | SystemNameField(text: seq<u8>)
    | SystemDescriptionField(text: seq<u8>)
    | CapabilitiesField(caps: u16, enabled: u16)
    | ManagementField(ip: IpAddr, numbering: seq<u8>)
    | OrganizationField(info: seq<u8>)
    | ReservedField(kind: u8, info: seq<u8>)
    | EndField

  predicate ValidField(f: Field) {
    match f
    case ChassisMacField(m) => |m| == 6
    case PortMacField(m) => |m| == 6
    case ChassisIpField(ip) => IsAddress(ip)
    case PortIpField(ip) => IsAddress(ip)
    case ManagementField(ip, n) => IsAddress(ip) && |n| < 200
    case ChassisTextField(t, x) =>
      !t.ChassisMac? && !t.ChassisNetworkAddress? && (t.ChassisUnknown? ==> t.n == 0 || t.n > 7) && |x| < 255
    case PortTextField(t, x) =>
      !t.PortMac? && !t.PortNetworkAddress? && (t.PortUnknown? ==> t.n == 0 || t.n > 7) && |x| < 255
    case PortDescriptionField(x) => |x| < 256
    case SystemNameField(x) => |x| < 256
    case SystemDescriptionField(x) => |x| < 256
    case OrganizationField(x) => |x| < 256
    case ReservedField(n, x) => 8 < n < 127 && |x| < 256
    case TtlField(_) => true
    case CapabilitiesField(_, _) => true
    case EndField => true
  }

  function Family(ip: IpAddr): u8 {
    if ip.V4? then 1 else 2
  }

  function FieldType(f: Field): u8 {
    match f
    case ChassisMacField(_) => 1
    case ChassisIpField(_) => 1
    case ChassisTextField(_, _) => 1
    case PortMacField(_) => 2
    case PortIpField(_) => 2
    case PortTextField(_, _) => 2
    case TtlField(_) => 3
    case PortDescriptionField(_) => 4
    case SystemNameField(_) => 5
    case SystemDescriptionField(_) => 6
    case CapabilitiesField(_, _) => 7
    case ManagementField(_, _) => 8
    case OrganizationField(_) => 127
    case ReservedField(n, _) => n
    case EndField => 0
  }

  /** The value bytes IEEE 802.1AB-2009, sections 8.5.2 to 8.5.9, gives each field. */
  function FieldBytes(f: Field): Value
    requires ValidField(f)
  {
    match f
    case ChassisMacField(m) => [4] + m
    case ChassisIpField(ip) => [5, Family(ip)] + ip.octets
    case ChassisTextField(t, x) => [ChassisNumber(t)] + x
    case PortMacField(m) => [3] + m
    case PortIpField(ip) => [4, Family(ip)] + ip.octets
    case PortTextField(t, x) => [PortNumber(t)] + x
    case TtlField(s) => Be16(s)
    case PortDescriptionField(x) => x
    case SystemNameField(x) => x
    case SystemDescriptionField(x) => x
    case CapabilitiesField(a, b) => Be16(a) + Be16(b)
    case ManagementField(ip, n) => [1 + |ip.octets|, Family(ip)] + ip.octets + n
    case OrganizationField(x) => x
    case ReservedField(_, x) => x
    case EndField => []
  }

  /** The TLV that says the same. */
  function FieldTlv(f: Field): Tlv
    requires ValidField(f)
  {
    var len := |FieldBytes(f)|;
    match f
    case ChassisMacField(m) => ChassisId(len, ChassisMac, MacValue(m))
    case ChassisIpField(ip) => ChassisId(len, ChassisNetworkAddress, IpValue(ip))
    case ChassisTextField(t, x) => ChassisId(len, t, StrValue(x))
    case PortMacField(m) => PortId(len, PortMac, MacValue(m))
    case PortIpField(ip) => PortId(len, PortNetworkAddress, IpValue(ip))
    case PortTextField(t, x) => PortId(len, t, StrValue(x))
    case TtlField(s) => Ttl(len, s)
    case PortDescriptionField(x) => PortDescription(len, x)
    case SystemNameField(x) => SystemName(len, x)
    case SystemDescriptionField(x) => SystemDescription(len, x)
    case CapabilitiesField(a, b) => Capabilities(len, a, b)
    case ManagementField(ip, n) => ManagementAddress(len, ip)
    case OrganizationField(_) => OrganizationSpecific(len)
    case ReservedField(n, x) => Reserved(n, len, x)
    case EndField => EndOfPdu
  }

  lemma SliceMiddle(a: seq<u8>, b: seq<u8>, c: seq<u8>)
    ensures Slice(a + b + c, |a|, |a| + |b|) == Some(b)
  {
    assert (a + b + c)[|a|..|a| + |b|] == b;
  }

  /** The chassis parser takes the address one byte early, so it reads the subtype and loses the last
      byte; only 04:04:04:04:04:04 comes out right. */
  lemma ChassisMacShifted(m: seq<u8>)
    requires |m| == 6
    ensures ParseChassisId(7, [4] + m) == Some(ChassisId(7, ChassisMac, MacValue([4] + m[..5])))
    ensures [4] + m[..5] == m <==> m == [4, 4, 4, 4, 4, 4]
  {
    assert ([4] + m)[0..6] == [4] + m[..5];
    if [4] + m[..5] == m {
      assert m[0] == 4 && m[1] == m[0] && m[2] == m[1] && m[3] == m[2] && m[4] == m[3] && m[5] == m[4];
    }
  }

  lemma AddressReadBack(f: Field)
    requires ValidField(f) && (f.ChassisIpField? || f.PortIpField? || f.ManagementField?)
    ensures MeetsMinimum(TypeOf(FieldType(f)), FieldBytes(f))
    ensures Decode(TypeOf(FieldType(f)), FieldBytes(f)) == Some(FieldTlv(f))
  {
    var v := FieldBytes(f);
    SliceMiddle(v[..2], f.ip.octets, if f.ManagementField? then f.numbering else []);
    assert v == v[..2] + f.ip.octets + (if f.ManagementField? then f.numbering else []);
    hide Slice, ChassisSubtypeOf, PortSubtypeOf;
    SubtypeTable();
  }

  lemma SubtypeTable()
    ensures ChassisSubtypeOf(5) == ChassisNetworkAddress && PortSubtypeOf(4) == PortNetworkAddress
  {
  }

  lemma IdTextReadBack(f: Field)
    requires ValidField(f) && (f.ChassisTextField? || f.PortTextField?)
    ensures MeetsMinimum(TypeOf(FieldType(f)), FieldBytes(f))
    ensures Decode(TypeOf(FieldType(f)), FieldBytes(f)) == Some(FieldTlv(f))
  {
    var v := FieldBytes(f);
    SliceMiddle(v[..1], f.text, []);
    assert v == v[..1] + f.text + [];
    if f.ChassisTextField? {
      NumberTables(0, EndOfLldpduType, f.chassis, PortLocal);
      NumberTables(0, EndOfLldpduType, ChassisMac, PortLocal);
      NumberTables(0, EndOfLldpduType, ChassisNetworkAddress, PortLocal);
    } else {
      NumberTables(0, EndOfLldpduType, Chassis, f.port);
      NumberTables(0, EndOfLldpduType, Chassis, PortMac);
      NumberTables(0, EndOfLldpduType, Chassis, PortNetworkAddress);
    }
    hide Slice, ChassisSubtypeOf, PortSubtypeOf, ParseNetworkId;
  }

  /** Every field is read back as it was meant, except chassis MAC addresses. */
  lemma FieldReadBackExactly(f: Field)
    requires ValidField(f)
    ensures MeetsMinimum(TypeOf(FieldType(f)), FieldBytes(f))
    ensures Decode(TypeOf(FieldType(f)), FieldBytes(f)) == Some(FieldTlv(f)) <==>
            (f.ChassisMacField? ==> f.mac == [4, 4, 4, 4, 4, 4])
  {
    hide AsIp, ParseNetworkId, ParseManagementAddress;
    var v := FieldBytes(f);
    if f.ChassisIpField? || f.PortIpField? || f.ManagementField? {
      AddressReadBack(f);
    } else if f.ChassisTextField? || f.PortTextField? {
      IdTextReadBack(f);
    } else if f.ChassisMacField? {
      ChassisMacShifted(f.mac);
    } else if f.PortMacField? {
      SliceMiddle([3], f.mac, []);
      assert v + [] == v;
    } else {
      assert v[..|v|] == v;
    }
  }
}
