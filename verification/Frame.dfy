/** The discovery frame: how a node lays it out in a buffer and how a receiver reads it. */
module Frame {
  import opened Bytes

  /** Host and interface names, as their UTF-8 bytes. */
  type Name = seq<u8>
  type Mac = m: seq<u8> | |m| == 6 witness [0, 0, 0, 0, 0, 0]

  datatype OperState = Up | Down
  datatype Interface = Interface(index: u32, name: Name, mac: Mac, state: OperState)
  datatype Peer = Peer(host: Name, nic: Name, mac: Mac, vlan: u16)

  const BROADCAST: Mac := [0xff, 0xff, 0xff, 0xff, 0xff, 0xff]
  const ETHERTYPE_VLAN: u16 := 0x8100
  const ETHERTYPE_AARP: u16 := 0x80f3
  const ETHERTYPE_IPV4: u16 := 0x0800
  const ARP_ETHERNET: u16 := 1
  const ARP_LENGTH := 28
  const REQUEST: u16 := 3
  const REPLY: u16 := 4

  // ---------------------------------------------------------------- layout

  /** Ethernet header, plus a tag unless the VLAN is 0. */
  function HeaderLength(vlan: u16): nat {
    if vlan != 0 then 18 else 14
  }

  function Opcode(dst: Mac): u16 {
    if dst == BROADCAST then REQUEST else REPLY
  }

  /** The tag's 12-bit identifier under the priority nibble already in the buffer. */
  function TagControl(prior: u8, vlan: u16): (r: seq<u8>)
    ensures |r| == 2 && Word(r, 0) % 4096 == vlan % 4096
  {
    var id := vlan % 4096;
    assert id / 256 < 16 && id / 256 * 256 + id % 256 == id;
    [prior - prior % 16 + id / 256, id % 256]
  }

  function Header(b: seq<u8>, src: Mac, dst: Mac, vlan: u16): (r: seq<u8>)
    requires HeaderLength(vlan) <= |b|
    ensures |r| == HeaderLength(vlan)
  {
    dst + src + (if vlan != 0 then Be16(ETHERTYPE_VLAN) + TagControl(b[14], vlan) else []) + Be16(ETHERTYPE_AARP)
  }

  /** The ARP fields the sender fills; the address fields that follow are left alone. */
  function ArpFields(dst: Mac): (r: seq<u8>)
    ensures |r| == 8 && Word(r, 6) == Opcode(dst)
  {
    [0, 1, 8, 0, 6, 4] + Be16(Opcode(dst))
  }

  /** The fixed part is that of RFC 826 for IPv4 over Ethernet. */
  lemma ArpConstants(dst: Mac)
    ensures var r := ArpFields(dst);
      Word(r, 0) == ARP_ETHERNET && Word(r, 2) == ETHERTYPE_IPV4 && r[4] == |dst| && r[5] == 4 &&
      (Word(r, 6) == REQUEST <==> dst == BROADCAST) && (Word(r, 6) == REPLY <==> dst != BROADCAST)
  {
  }

  /** Both names behind a length byte, then the VLAN in 16 bits. */
  function Payload(nic: Name, host: Name, vlan: u16): (r: seq<u8>)
    ensures |r| == |nic| + |host| + 4
  {
    [|nic| % 256] + nic + [|host| % 256] + host + Be16(vlan)
  }

  function FrameLength(nic: Name, host: Name, vlan: u16): nat {
    HeaderLength(vlan) + ARP_LENGTH + |nic| + |host| + 4
  }

  /** Buffer `b` after the frame has been written over its front. */
  function Image(b: seq<u8>, nic: Interface, dst: Mac, vlan: u16, host: Name): (r: seq<u8>)
    requires FrameLength(nic.name, host, vlan) <= |b|
    ensures |r| == |b|
  {
    var h := HeaderLength(vlan);
    Splice(Splice(Splice(b, 0, Header(b, nic.mac, dst, vlan)), h, ArpFields(dst)),
           h + ARP_LENGTH, Payload(nic.name, host, vlan))
  }

  // ---------------------------------------------------------------- the image, byte for byte

  /** Addresses, then 81 00 and the low twelve bits of the VLAN if it is not 0, then 80 f3. The priority bits
      of the tag are those of `b`. */
  ghost predicate HeaderIn(f: seq<u8>, b: seq<u8>, src: Mac, dst: Mac, vlan: u16) {
    var at := if vlan != 0 then 18 else 14;
    && |f| == |b| >= at
    && f[..6] == dst && f[6..12] == src && f[at - 2] == 0x80 && f[at - 1] == 0xf3
    && (vlan != 0 ==>
          && f[12] == 0x81 && f[13] == 0
          && f[14] / 16 == b[14] / 16 && f[14] % 16 == vlan / 256 % 16 && f[15] == vlan % 256)
  }

  /** From `at`: both names behind a length byte, then the VLAN. */
  ghost predicate NamesIn(f: seq<u8>, at: nat, nic: Name, host: Name, vlan: u16) {
    var n, h := |nic|, |host|;
    && |f| >= at + n + h + 4
    && f[at] == n % 256 && f[at + 1..at + 1 + n] == nic
    && f[at + 1 + n] == h % 256 && f[at + 2 + n..at + 2 + n + h] == host
    && f[at + 2 + n + h] == vlan / 256 && f[at + 3 + n + h] == vlan % 256
  }

  /** `f` is the buffer `b` with the frame written over its front. The address fields of the ARP part and what
      lies behind the frame keep their old bytes. */
  ghost predicate Laid(f: seq<u8>, b: seq<u8>, nic: Interface, dst: Mac, vlan: u16, host: Name) {
    var at := if vlan != 0 then 18 else 14;
    && HeaderIn(f, b, nic.mac, dst, vlan)
    && NamesIn(f, at + 28, nic.name, host, vlan)
    && f[at..at + 8] == [0, 1, 8, 0, 6, 4, 0, if dst == [0xff, 0xff, 0xff, 0xff, 0xff, 0xff] then 3 else 4]
    && f[at + 8..at + 28] == b[at + 8..at + 28]
    && f[at + 32 + |nic.name| + |host|..] == b[at + 32 + |nic.name| + |host|..]
  }

  lemma TagKeepsPriority(prior: u8, vlan: u16)
    ensures var t := TagControl(prior, vlan);
      t[0] / 16 == prior / 16 && t[0] % 16 == vlan / 256 % 16 && t[1] == vlan % 256
  {
    var id, t := vlan % 4096, TagControl(prior, vlan);
    assert t[0] == prior - prior % 16 + id / 256 && t[1] == id % 256;
    hide TagControl;
    LowTwelve(vlan);
    NibbleAbove(prior, id / 256);
  }

  lemma LowTwelve(v: nat)
    ensures v % 4096 / 256 == v / 256 % 16 && v % 4096 % 256 == v % 256
  {
    var c, r := v / 256 % 16, v % 256;
    assert v == v / 256 / 16 * 4096 + (c * 256 + r);
    assert v % 4096 == c * 256 + r;
  }

  lemma NibbleAbove(prior: u8, low: nat)
    requires low < 16
    ensures var x := prior - prior % 16 + low; x / 16 == prior / 16 && x % 16 == low
  {
    assert prior - prior % 16 == prior / 16 * 16;
  }

  lemma HeaderParts(b: seq<u8>, src: Mac, dst: Mac, vlan: u16)
    requires HeaderLength(vlan) <= |b|
    ensures HeaderIn(Header(b, src, dst, vlan) + b[HeaderLength(vlan)..], b, src, dst, vlan)
  {
    if vlan != 0 {
      TagKeepsPriority(b[14], vlan);
    }
    hide TagControl;
    var f := Header(b, src, dst, vlan) + b[HeaderLength(vlan)..];
    assert f[..6] == dst && f[6..12] == src;
  }

  lemma SameHeader(f: seq<u8>, g: seq<u8>, b: seq<u8>, src: Mac, dst: Mac, vlan: u16)
    requires |f| == |g| >= HeaderLength(vlan) && f[..HeaderLength(vlan)] == g[..HeaderLength(vlan)]
    requires HeaderIn(g, b, src, dst, vlan)
    ensures HeaderIn(f, b, src, dst, vlan)
  {
    var x, at := f[..HeaderLength(vlan)], HeaderLength(vlan);
    assert forall i {:trigger f[i]} {:trigger g[i]} :: 0 <= i < at ==> f[i] == x[i] == g[i];
    assert f[..6] == g[..6] && f[6..12] == g[6..12];
  }

  lemma ArpLaid(dst: Mac)
    ensures ArpFields(dst) ==
            [0, 1, 8, 0, 6, 4, 0, if dst == [0xff, 0xff, 0xff, 0xff, 0xff, 0xff] then 3 else 4]
  {
  }

  /** Three regions are written, the rest is untouched. */
  lemma ImageRegions(b: seq<u8>, nic: Interface, dst: Mac, vlan: u16, host: Name)
    requires FrameLength(nic.name, host, vlan) <= |b|
    ensures var f, at, p := Image(b, nic, dst, vlan, host), HeaderLength(vlan), Payload(nic.name, host, vlan);
      && f[..at] == Header(b, nic.mac, dst, vlan)
      && f[at..at + 8] == ArpFields(dst)
      && f[at + 8..at + 28] == b[at + 8..at + 28]
      && f[at + 28..at + 28 + |p|] == p
      && f[at + 28 + |p|..] == b[at + 28 + |p|..]
  {
    hide Header, ArpFields, Payload;
  }

  lemma PayloadLaid(f: seq<u8>, at: nat, nic: Name, host: Name, vlan: u16)
    requires var p := Payload(nic, host, vlan); at + |p| <= |f| && f[at..at + |p|] == p
    ensures NamesIn(f, at, nic, host, vlan)
  {
    var p, n, h := Payload(nic, host, vlan), |nic|, |host|;
    PayloadBytes(nic, host, vlan);
    assert p[2 + n + h] == vlan / 256 && p[3 + n + h] == vlan % 256;
    hide Payload;
    SliceOfSlice(f, at, p, 0, 1);
    SliceOfSlice(f, at, p, 1, 1 + n);
    SliceOfSlice(f, at, p, 1 + n, 2 + n);
    SliceOfSlice(f, at, p, 2 + n, 2 + n + h);
    SliceOfSlice(f, at, p, 2 + n + h, 3 + n + h);
    SliceOfSlice(f, at, p, 3 + n + h, 4 + n + h);
  }

  /** What `builder` leaves in a buffer that is long enough, in bytes. */
  lemma ImageLaid(b: seq<u8>, nic: Interface, dst: Mac, vlan: u16, host: Name)
    ensures FrameLength(nic.name, host, vlan) == (if vlan != 0 then 50 else 46) + |nic.name| + |host|
    ensures FrameLength(nic.name, host, vlan) <= |b| ==>
              Laid(Image(b, nic, dst, vlan, host), b, nic, dst, vlan, host)
  {
    if FrameLength(nic.name, host, vlan) <= |b| {
      var f, at := Image(b, nic, dst, vlan, host), HeaderLength(vlan);
      var g := Header(b, nic.mac, dst, vlan) + b[at..];
      ImageRegions(b, nic, dst, vlan, host);
      ArpLaid(dst);
      hide Image, Header, Payload, ArpFields, HeaderIn, NamesIn;
      HeaderParts(b, nic.mac, dst, vlan);
      assert g[..at] == f[..at];
      SameHeader(f, g, b, nic.mac, dst, vlan);
      PayloadLaid(f, at + 28, nic.name, host, vlan);
    }
  }

  // ---------------------------------------------------------------- builder

  method Write(buf: array<u8>, at: nat, x: seq<u8>)
    requires at + |x| <= buf.Length
    modifies buf
    ensures buf[..] == Splice(old(buf[..]), at, x)
  {
    forall i | 0 <= i < |x| {
      buf[at + i] := x[i];
    }
  }

  lemma SpliceAppend(b: seq<u8>, x: seq<u8>, y: seq<u8>)
    requires |x| + |y| <= |b|
    ensures Splice(Splice(b, 0, x), |x|, y) == Splice(b, 0, x + y)
  {
  }

  /** The Ethernet part of `builder`: addresses, then the tag and its EtherType when there is one. */
  method WriteHeader(buf: array<u8>, src: Mac, dst: Mac, vlan: u16)
    requires HeaderLength(vlan) <= buf.Length
    modifies buf
    ensures buf[..] == Splice(old(buf[..]), 0, Header(old(buf[..]), src, dst, vlan))
  {
    ghost var b := buf[..];
    Write(buf, 0, dst);
    Write(buf, 6, src);
    SpliceAppend(b, dst, src);
    ghost var x := dst + src;
    if vlan != 0 {
      Write(buf, 12, Be16(ETHERTYPE_VLAN));
      SpliceAppend(b, x, Be16(ETHERTYPE_VLAN));
      x := x + Be16(ETHERTYPE_VLAN);
      assert buf[14] == buf[..][14] == b[14];
      var tag := TagControl(buf[14], vlan);
      Write(buf, 14, tag);
      SpliceAppend(b, x, tag);
      Write(buf, 16, Be16(ETHERTYPE_AARP));
      SpliceAppend(b, x + tag, Be16(ETHERTYPE_AARP));
      assert x + tag + Be16(ETHERTYPE_AARP) == Header(b, src, dst, vlan);
    } else {
      Write(buf, 12, Be16(ETHERTYPE_AARP));
      SpliceAppend(b, x, Be16(ETHERTYPE_AARP));
      assert x + Be16(ETHERTYPE_AARP) == Header(b, src, dst, vlan);
    }
  }

  /** `builder`; `None` stands for the panic when something does not fit. */
  method Build(buf: array<u8>, nic: Interface, dst: Mac, vlan: u16, host: Name) returns (r: Option<nat>)
    modifies buf
    ensures r.Some? <==> FrameLength(nic.name, host, vlan) <= buf.Length
    ensures r.Some? ==> r.value == (if vlan != 0 then 50 else 46) + |nic.name| + |host|
    ensures r.Some? ==> buf[..] == Image(old(buf[..]), nic, dst, vlan, host)
    ensures r.Some? ==> Laid(buf[..], old(buf[..]), nic, dst, vlan, host)
  {
    ImageLaid(buf[..], nic, dst, vlan, host);
    hide Splice, Header, Laid;
    var len := HeaderLength(vlan);
    if buf.Length < len {
      return None;
    }
    WriteHeader(buf, nic.mac, dst, vlan);
    if buf.Length < len + ARP_LENGTH {
      return None;
    }
    Write(buf, len, ArpFields(dst));
    len := len + ARP_LENGTH;
    var start := len;
    var payload := [|nic.name| % 256] + nic.name;
    len := len + 1 + |nic.name|;
    payload := payload + [|host| % 256] + host;
    len := len + 1 + |host|;
    payload := payload + Be16(vlan);
    len := len + 2;
    assert payload == Payload(nic.name, host, vlan);
    if buf.Length < len {
      return None;
    }
    Write(buf, start, payload);
    return Some(len);
  }

  /** For the sender's 256-byte buffer, and what lies behind the frame stays as it was. */
  lemma FitsIn256(b: seq<u8>, nic: Interface, dst: Mac, vlan: u16, host: Name)
    requires |b| == 256
    ensures FrameLength(nic.name, host, vlan) <= |b| <==>
            |nic.name| + |host| <= if vlan != 0 then 206 else 210
    ensures FrameLength(nic.name, host, vlan) <= |b| ==>
              && |nic.name| < 256 && |host| < 256
              && var n := FrameLength(nic.name, host, vlan); Image(b, nic, dst, vlan, host)[n..] == b[n..]
  {
  }

  // ---------------------------------------------------------------- parser

  /** `Panic` is an index out of range; `Ignored` is the parser's `None`. */
  datatype Parsed = Panic | Ignored | Seen(peer: Peer, request: bool)

  function ParseBody(b: seq<u8>, at: nat, mac: Mac, request: bool): Parsed {
    if at >= |b| then Panic else
      var hostAt := at + 1 + b[at];
      if hostAt >= |b| then Panic else
        var vlanAt := hostAt + 1 + b[hostAt];
        if vlanAt + 2 > |b| then Panic
        else Seen(Peer(b[hostAt + 1..vlanAt], b[at + 1..hostAt], mac, Word(b, vlanAt)), request)
  }

  function ParseFrame(b: seq<u8>): Parsed {
    if |b| < 14 then Panic else
      var tagged := Word(b, 12) == ETHERTYPE_VLAN;
      if tagged && |b| < 18 then Panic else
        var at := if tagged then 18 else 14;
        if Word(b, at - 2) != ETHERTYPE_AARP then Ignored
        else if |b| < at + ARP_LENGTH then Panic
        else ParseBody(b, at + ARP_LENGTH, b[6..12], Word(b, at + 6) == REQUEST)
  }

  // ---------------------------------------------------------------- the parse, byte for byte

  /** Where the ARP part begins: behind a tag exactly when bytes 12 and 13 are 81 00. */
  function ArpAt(b: seq<u8>): nat {
    if |b| >= 14 && b[12] == 0x81 && b[13] == 0 then 18 else 14
  }

  /** The frame is of EtherType 80 f3, and header, ARP part, both names and the VLAN are all there. */
  predicate Whole(b: seq<u8>) {
    var at := ArpAt(b);
    && |b| >= at + 29 && b[at - 2] == 0x80 && b[at - 1] == 0xf3
    && |b| >= at + 30 + b[at + 28]
    && |b| >= at + 32 + b[at + 28] + b[at + 29 + b[at + 28]]
  }

  /** What a receiver must make of any bytes: a frame of another EtherType is ignored, a whole one is seen,
      as a request exactly for operation 00 03, and anything else is read out of range. */
  ghost predicate Reads(b: seq<u8>, r: Parsed) {
    var at := ArpAt(b);
    && (r.Ignored? <==> |b| >= at && !(b[at - 2] == 0x80 && b[at - 1] == 0xf3))
    && (r.Seen? <==> Whole(b))
    && (r.Seen? ==>
          var n := b[at + 28];
          var h := b[at + 29 + n];
          && (r.request <==> b[at + 6] == 0 && b[at + 7] == 3)
          && r.peer.mac == b[6..12]
          && r.peer.nic == b[at + 29..at + 29 + n]
          && r.peer.host == b[at + 30 + n..at + 30 + n + h]
          && r.peer.vlan / 256 == b[at + 30 + n + h] && r.peer.vlan % 256 == b[at + 31 + n + h])
  }

  lemma ParseReads(b: seq<u8>)
    ensures Reads(b, ParseFrame(b))
  {
  }

  /** `parse`, advancing its offset through the buffer. */
  method Parse(buf: array<u8>) returns (r: Parsed)
    ensures r == ParseFrame(buf[..])
    ensures Reads(buf[..], r)
  {
    ParseReads(buf[..]);
    hide Reads;
    if buf.Length < 14 {
      return Panic;
    }
    var mac := buf[6..12];
    var offset := 14;
    var etherType := FromBe16(buf[12], buf[13]);
    if etherType == ETHERTYPE_VLAN {
      if buf.Length < 18 {
        return Panic;
      }
      etherType := FromBe16(buf[16], buf[17]);
      offset := offset + 4;
    }
    if etherType != ETHERTYPE_AARP {
      return Ignored;
    }
    if buf.Length < offset + ARP_LENGTH {
      return Panic;
    }
    var request := FromBe16(buf[offset + 6], buf[offset + 7]) == REQUEST;
    offset := offset + ARP_LENGTH;
    if offset >= buf.Length || offset + 1 + buf[offset] > buf.Length {
      return Panic;
    }
    var end := offset + 1 + buf[offset];
    var nic := buf[offset + 1..end];
    offset := end;
    if offset >= buf.Length || offset + 1 + buf[offset] > buf.Length {
      return Panic;
    }
    end := offset + 1 + buf[offset];
    var host := buf[offset + 1..end];
    offset := end;
    if offset + 2 > buf.Length {
      return Panic;
    }
    return Seen(Peer(host, nic, mac, FromBe16(buf[offset], buf[offset + 1])), request);
  }

  /** The receiver's 1024-byte buffer is always long enough, whatever bytes arrive. */
  lemma ParseTotal(b: seq<u8>)
    requires |b| >= 560
    ensures !ParseFrame(b).Panic?
  {
  }

  /** 560 is the least such bound. */
  lemma ParseBoundTight(n: nat)
    requires n < 560
    ensures exists b: seq<u8> :: |b| == n && ParseFrame(b).Panic?
  {
    var b: seq<u8> := seq(n, i => if i == 12 then 0x81 else if i == 13 then 0
                                  else if i == 16 then 0x80 else if i == 17 then 0xf3 else 0xff);
    assert ParseFrame(b).Panic?;
  }

  // ---------------------------------------------------------------- round trip

  datatype Tag = Untagged | Tagged(vid: nat)

  /** The VLAN a bridge sees on a frame. */
  function TagOn(f: seq<u8>): Tag
    requires |f| >= 16
  {
    if Word(f, 12) == ETHERTYPE_VLAN then Tagged(Word(f, 14) % 4096) else Untagged
  }

  /** The tag a probe for `vlan` travels under: twelve bits of it, or none for VLAN 0. */
  function TagOf(vlan: u16): Tag {
    if vlan == 0 then Untagged else Tagged(vlan % 4096)
  }

  /** What a NIC or bridge does when it removes the tag. */
  function StripTag(f: seq<u8>): seq<u8>
    requires |f| >= 16
  {
    f[..12] + f[16..]
  }

  /** `f` is a frame whose ARP part begins at `at`. */
  ghost predicate Encodes(f: seq<u8>, at: nat, nic: Interface, dst: Mac, vlan: u16, host: Name) {
    && |f| >= at + ARP_LENGTH + |nic.name| + |host| + 4
    && (at == 14 || (at == 18 && Word(f, 12) == ETHERTYPE_VLAN))
    && Word(f, at - 2) == ETHERTYPE_AARP
    && f[6..12] == nic.mac
    && Word(f, at + 6) == Opcode(dst)
    && var p := Payload(nic.name, host, vlan);
       f[at + ARP_LENGTH..at + ARP_LENGTH + |p|] == p
  }

  function Message(nic: Interface, dst: Mac, vlan: u16, host: Name): Parsed {
    Seen(Peer(host, nic.name, nic.mac, vlan), dst == BROADCAST)
  }

  lemma PayloadBytes(nic: Name, host: Name, vlan: u16)
    ensures var p := Payload(nic, host, vlan);
      && p[0] == |nic| % 256
      && p[1..1 + |nic|] == nic
      && p[1 + |nic|] == |host| % 256
      && p[2 + |nic|..2 + |nic| + |host|] == host
      && Word(p, 2 + |nic| + |host|) == vlan
  {
  }

  lemma SliceOfSlice(f: seq<u8>, at: nat, p: seq<u8>, lo: nat, hi: nat)
    requires at + |p| <= |f| && f[at..at + |p|] == p && lo <= hi <= |p|
    ensures f[at + lo..at + hi] == p[lo..hi]
    ensures lo < |p| ==> f[at + lo] == p[lo]
  {
    assert forall i {:trigger p[i]} :: 0 <= i < |p| ==> p[i] == f[at + i];
  }

  lemma WordOfSlice(f: seq<u8>, at: nat, p: seq<u8>, lo: nat)
    requires at + |p| <= |f| && f[at..at + |p|] == p && lo + 2 <= |p|
    ensures Word(f, at + lo) == Word(p, lo)
  {
    SliceOfSlice(f, at, p, lo, lo);
    SliceOfSlice(f, at, p, lo + 1, lo + 1);
  }

  lemma BodyReads(f: seq<u8>, at: nat, mac: Mac, request: bool, nic: Name, host: Name, vlan: u16)
    requires |nic| < 256 && |host| < 256
    requires var p := Payload(nic, host, vlan); at + |p| <= |f| && f[at..at + |p|] == p
    ensures ParseBody(f, at, mac, request) == Seen(Peer(host, nic, mac, vlan), request)
  {
    var p := Payload(nic, host, vlan);
    var h := 1 + |nic|;
    var v := h + 1 + |host|;
    PayloadBytes(nic, host, vlan);
    hide Payload, Word;
    SliceOfSlice(f, at, p, 0, 1);
    SliceOfSlice(f, at, p, 1, h);
    SliceOfSlice(f, at, p, h, h + 1);
    SliceOfSlice(f, at, p, h + 1, v);
    WordOfSlice(f, at, p, v);
  }

  /** A name of 256 bytes or more loses its length, so it is never read back. */
  lemma BodyTruncates(f: seq<u8>, at: nat, mac: Mac, request: bool, nic: Name, host: Name, vlan: u16)
    requires |nic| >= 256 || |host| >= 256
    requires var p := Payload(nic, host, vlan); at + |p| <= |f| && f[at..at + |p|] == p
    ensures ParseBody(f, at, mac, request) != Seen(Peer(host, nic, mac, vlan), request)
  {
    var p := Payload(nic, host, vlan);
    PayloadBytes(nic, host, vlan);
    hide Payload;
    SliceOfSlice(f, at, p, 0, 1);
    SliceOfSlice(f, at, p, 1 + |nic|, 2 + |nic|);
  }

  lemma EncodesParses(f: seq<u8>, at: nat, nic: Interface, dst: Mac, vlan: u16, host: Name)
    requires Encodes(f, at, nic, dst, vlan, host)
    ensures ParseFrame(f) == Message(nic, dst, vlan, host) <==> |nic.name| < 256 && |host| < 256
  {
    var b := at + ARP_LENGTH;
    assert ParseFrame(f) == ParseBody(f, b, nic.mac, dst == BROADCAST);
    hide ParseFrame, Payload, ParseBody;
    if |nic.name| < 256 && |host| < 256 {
      BodyReads(f, b, nic.mac, dst == BROADCAST, nic.name, host, vlan);
    } else {
      BodyTruncates(f, b, nic.mac, dst == BROADCAST, nic.name, host, vlan);
    }
  }

  /** The three written regions, read back from the buffer. */
  lemma ImageParts(b: seq<u8>, nic: Interface, dst: Mac, vlan: u16, host: Name)
    requires FrameLength(nic.name, host, vlan) <= |b|
    ensures var f, h, p := Image(b, nic, dst, vlan, host), HeaderLength(vlan), Payload(nic.name, host, vlan);
      && f[..h] == Header(b, nic.mac, dst, vlan)
      && f[h..h + 8] == ArpFields(dst)
      && f[h + ARP_LENGTH..h + ARP_LENGTH + |p|] == p
  {
    hide Header, ArpFields, Payload;
  }

  lemma HeaderBytes(b: seq<u8>, src: Mac, dst: Mac, vlan: u16)
    requires HeaderLength(vlan) <= |b|
    ensures var x, h := Header(b, src, dst, vlan), HeaderLength(vlan);
      && x[..6] == dst && x[6..12] == src
      && Word(x, h - 2) == ETHERTYPE_AARP
      && (vlan != 0 ==> Word(x, 12) == ETHERTYPE_VLAN && Word(x, 14) % 4096 == vlan % 4096)
  {
    var t := TagControl(if vlan != 0 then b[14] else 0, vlan);
    assert Word(t, 0) % 4096 == vlan % 4096;
    hide TagControl;
  }

  lemma PrefixSlice(g: seq<u8>, t: seq<u8>, lo: nat, hi: nat)
    requires lo <= hi <= |g|
    ensures (g + t)[lo..hi] == g[lo..hi]
  {
  }

  lemma HeaderOnWire(b: seq<u8>, f: seq<u8>, src: Mac, dst: Mac, vlan: u16)
    requires HeaderLength(vlan) <= |b| && |f| >= 18 && f[..HeaderLength(vlan)] == Header(b, src, dst, vlan)
    ensures f[6..12] == src && Word(f, HeaderLength(vlan) - 2) == ETHERTYPE_AARP
    ensures vlan != 0 ==> Word(f, 12) == ETHERTYPE_VLAN
    ensures TagOn(f) == TagOf(vlan)
  {
    var x, h := Header(b, src, dst, vlan), HeaderLength(vlan);
    HeaderBytes(b, src, dst, vlan);
    hide Header;
    assert forall i {:trigger x[i]} :: 0 <= i < h ==> x[i] == f[i];
    assert f[6..12] == x[6..12];
  }

  lemma ArpOnWire(f: seq<u8>, at: nat, dst: Mac)
    requires at + 8 <= |f| && f[at..at + 8] == ArpFields(dst)
    ensures Word(f, at + 6) == Opcode(dst)
  {
    hide ArpFields, Opcode;
    WordOfSlice(f, at, ArpFields(dst), 6);
  }

  lemma ImageEncodes(b: seq<u8>, t: seq<u8>, nic: Interface, dst: Mac, vlan: u16, host: Name)
    requires FrameLength(nic.name, host, vlan) <= |b|
    ensures var f := Image(b, nic, dst, vlan, host) + t;
      Encodes(f, HeaderLength(vlan), nic, dst, vlan, host) && TagOn(f) == TagOf(vlan)
  {
    var g, h, p := Image(b, nic, dst, vlan, host), HeaderLength(vlan), Payload(nic.name, host, vlan);
    ImageParts(b, nic, dst, vlan, host);
    hide Image, Header, Payload, ArpFields, TagOn, TagOf, Word, Opcode;
    PrefixSlice(g, t, 0, h);
    HeaderOnWire(b, g + t, nic.mac, dst, vlan);
    PrefixSlice(g, t, h, h + 8);
    ArpOnWire(g + t, h, dst);
    PrefixSlice(g, t, h + ARP_LENGTH, h + ARP_LENGTH + |p|);
  }

  lemma StripEncodes(f: seq<u8>, nic: Interface, dst: Mac, vlan: u16, host: Name)
    requires Encodes(f, 18, nic, dst, vlan, host)
    ensures Encodes(StripTag(f), 14, nic, dst, vlan, host)
  {
    var g, p := StripTag(f), Payload(nic.name, host, vlan);
    hide Payload;
    assert forall i :: 12 <= i < |g| ==> g[i] == f[i + 4];
    assert g[6..12] == f[6..12];
    assert g[14 + ARP_LENGTH..14 + ARP_LENGTH + |p|] == f[18 + ARP_LENGTH..18 + ARP_LENGTH + |p|];
  }

  /** Whatever the buffer held before and whatever follows it on the wire, the receiver reads back the
      sender's names, address and VLAN, with the request flag set exactly for a broadcast destination;
      this holds exactly when neither length byte wraps. */
  lemma FrameRoundTrip(b: seq<u8>, t: seq<u8>, nic: Interface, dst: Mac, vlan: u16, host: Name)
    requires FrameLength(nic.name, host, vlan) <= |b|
    ensures ParseFrame(Image(b, nic, dst, vlan, host) + t) == Message(nic, dst, vlan, host) <==>
            |nic.name| < 256 && |host| < 256
    ensures TagOn(Image(b, nic, dst, vlan, host) + t) == TagOf(vlan)
  {
    hide *;
    ImageEncodes(b, t, nic, dst, vlan, host);
    EncodesParses(Image(b, nic, dst, vlan, host) + t, HeaderLength(vlan), nic, dst, vlan, host);
  }

  /** Removing the tag on the way changes nothing the receiver reads. */
  lemma StrippedRoundTrip(b: seq<u8>, t: seq<u8>, nic: Interface, dst: Mac, vlan: u16, host: Name)
    requires FrameLength(nic.name, host, vlan) <= |b| && vlan != 0
    ensures ParseFrame(StripTag(Image(b, nic, dst, vlan, host) + t)) == Message(nic, dst, vlan, host) <==>
            |nic.name| < 256 && |host| < 256
  {
    var f := Image(b, nic, dst, vlan, host) + t;
    ImageEncodes(b, t, nic, dst, vlan, host);
    hide *;
    StripEncodes(f, nic, dst, vlan, host);
    EncodesParses(StripTag(f), 14, nic, dst, vlan, host);
  }
}
