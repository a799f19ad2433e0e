/** What the value parsers make of any bytes, well-formed or not. */
module TlvBytes {
  import opened Bytes
  import opened Tlv

  // ---------------------------------------------------------------- identifiers and addresses

  /** How far a network address reaches: 4 or 16 bytes behind the family, or to the length given. */
  function AddressEnd(len: u16, v: seq<u8>): nat
    requires |v| >= 2
  {
    if v[1] == 1 then 6 else if v[1] == 2 then 18 else len
  }

  /** What stands in for an identifier's bytes `v` under a subtype number for MAC addresses, which begin at
      `macAt`, and one for network addresses. Every other number, and every unknown family, is text. */
  ghost predicate IdIn(len: u16, v: seq<u8>, mac: u8, macAt: nat, network: u8, r: Option<IdValue>) {
    && (r.Some? <==>
          && |v| >= 1
          && (v[0] == mac ==> |v| >= macAt + 6)
          && (v[0] == network ==> |v| >= 2 && 2 <= AddressEnd(len, v) <= |v|)
          && (v[0] != mac && v[0] != network ==> 1 <= len <= |v|))
    && (r.Some? && v[0] == mac ==> r.value == MacValue(v[macAt..macAt + 6]))
    && (r.Some? && v[0] == network && v[1] == 1 ==> r.value == IpValue(V4(v[2..6])))
    && (r.Some? && v[0] == network && v[1] == 2 ==> r.value == IpValue(V6(v[2..18])))
    && (r.Some? && v[0] == network && v[1] != 1 && v[1] != 2 ==> r.value == StrValue(v[2..len]))
    && (r.Some? && v[0] != mac && v[0] != network ==> r.value == StrValue(v[1..len]))
  }

  function IdOf(t: Option<Tlv>): Option<IdValue>
    requires t.Some? ==> t.value.ChassisId? || t.value.PortId?
  {
    if t.None? then None else Some(t.value.id)
  }

  /** A chassis identifier: number 4 is an address taken from the subtype byte on, number 5 a network address. */
  lemma ChassisExactly(len: u16, v: seq<u8>)
    ensures var r := ParseValue(TypeOf(1), len, v);
      && (r.Some? ==> r.value.ChassisId? && r.value.len == len && v != [] && ChassisNumber(r.value.chassis) == v[0])
      && IdIn(len, v, 4, 0, 5, IdOf(r))
  {
    if v != [] {
      NumberTables(v[0], EndOfLldpduType, Chassis, PortLocal);
    }
  }

  /** A port identifier: number 3 is an address taken from behind the subtype byte, number 4 a network address. */
  lemma PortExactly(len: u16, v: seq<u8>)
    ensures var r := ParseValue(TypeOf(2), len, v);
      && (r.Some? ==> r.value.PortId? && r.value.len == len && v != [] && PortNumber(r.value.port) == v[0])
      && IdIn(len, v, 3, 1, 4, IdOf(r))
  {
    if v != [] {
      NumberTables(v[0], EndOfLldpduType, Chassis, PortLocal);
    }
  }

  /** A management address of an unknown family reads as 0.0.0.0. */
  lemma ManagementExactly(len: u16, v: seq<u8>)
    ensures var r := ParseValue(TypeOf(8), len, v);
      && (r.Some? <==> |v| >= 2 && (v[1] == 1 ==> |v| >= 6) && (v[1] == 2 ==> |v| >= 18))
      && (r.Some? ==>
            && r.value.ManagementAddress? && r.value.len == len
            && r.value.address ==
               if v[1] == 1 then V4(v[2..6]) else if v[1] == 2 then V6(v[2..18]) else V4([0, 0, 0, 0]))
  {
  }

  // ---------------------------------------------------------------- the other types

  /** Fixed numbers are read whatever length is given, and recorded with their own. */
  lemma FixedExactly(len: u16, v: seq<u8>)
    ensures ParseValue(TypeOf(0), len, v) == Some(EndOfPdu)
    ensures ParseValue(TypeOf(127), len, v) == Some(OrganizationSpecific(len))
    ensures var r := ParseValue(TypeOf(3), len, v);
      && (r.Some? <==> |v| >= 2)
      && (r.Some? ==> r.value.Ttl? && r.value.len == 2 && Be16(r.value.seconds) == v[..2])
    ensures var r := ParseValue(TypeOf(7), len, v);
      && (r.Some? <==> |v| >= 4)
      && (r.Some? ==>
            && r.value.Capabilities? && r.value.len == 4
            && Be16(r.value.caps) == v[..2] && Be16(r.value.enabled) == v[2..4])
  {
    if |v| >= 2 {
      WordBack(v, 0);
    }
    if |v| >= 4 {
      WordBack(v, 2);
    }
  }

  lemma WordBack(v: seq<u8>, at: nat)
    requires at + 2 <= |v|
    ensures Be16(Word(v, at)) == v[at..at + 2]
  {
  }

  /** Texts, and the types the standard reserves, are the first `len` bytes. */
  lemma TextsExactly(n: u8, len: u16, v: seq<u8>)
    requires 4 <= n <= 6 || (8 < n && n != 127)
    ensures ParseValue(TypeOf(n), len, v) ==
      if |v| < len then None
      else if n == 4 then Some(PortDescription(len, v[..len]))
      else if n == 5 then Some(SystemName(len, v[..len]))
      else if n == 6 then Some(SystemDescription(len, v[..len]))
      else Some(Reserved(n, len, v[..len]))
  {
  }

  /** The numbers of the known members, type by type. */
  lemma KnownNumbers()
    ensures seq(8, i requires 0 <= i < 8 => ChassisSubtypeOf(i))[1..] ==
      [Chassis, ChassisInterfaceAlias, ChassisPort, ChassisMac, ChassisNetworkAddress, ChassisInterfaceName,
       ChassisLocal]
    ensures seq(8, i requires 0 <= i < 8 => PortSubtypeOf(i))[1..] ==
      [PortInterfaceAlias, PortComponent, PortMac, PortNetworkAddress, PortInterfaceName, PortCircuitId, PortLocal]
  {
  }
}
