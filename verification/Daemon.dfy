/** One running node: its queues, its tasks' turns, and the probes it starts with. */
module Daemon {
  import opened Bytes
  import opened Frame
  import opened Topology
  import VlanList
  import opened VlanText

  // ---------------------------------------------------------------- probes

  /** The ranges a node probes: those asked for, or all of them, and always the untagged one. */
  function ProbeRanges(asked: seq<Range>): seq<Range> {
    (if asked == [] then [Range(1, 4094)] else asked) + [Range(0, 0)]
  }

  predicate Probed(ranges: seq<Range>, v: u16) {
    exists i :: 0 <= i < |ranges| && ranges[i].lo <= v <= ranges[i].hi
  }

  /** A node told nothing probes the untagged VLAN and 1 to 4094; one told ranges, those and the untagged. */
  lemma ProbedExactly(asked: seq<Range>, v: u16)
    ensures Probed(ProbeRanges([]), v) <==> v <= 4094
    ensures asked != [] ==> (Probed(ProbeRanges(asked), v) <==> v == 0 || Probed(asked, v))
  {
    assert ProbeRanges([])[0] == Range(1, 4094) && ProbeRanges([])[1] == Range(0, 0);
    var all := ProbeRanges(asked);
    assert all[|all| - 1] == Range(0, 0);
    if asked != [] {
      assert forall i :: 0 <= i < |asked| ==> all[i] == asked[i];
    }
  }

  function Probe(index: u32, v: u16): Entry {
    Entry(index, Peer([], [], BROADCAST, v))
  }

  function Probes(index: u32, vs: seq<u16>): (r: seq<Entry>)
    ensures |r| == |vs| && forall i :: 0 <= i < |vs| ==> r[i] == Probe(index, vs[i])
  {
    seq(|vs|, i requires 0 <= i < |vs| => Probe(index, vs[i]))
  }

  function Seeds(nics: seq<Interface>, ranges: seq<Range>): seq<Entry> {
    if nics == [] then [] else Probes(nics[0].index, Expand(ranges)) + Seeds(nics[1..], ranges)
  }

  lemma ProbesConcat(index: u32, a: seq<u16>, b: seq<u16>)
    ensures Probes(index, a + b) == Probes(index, a) + Probes(index, b)
  {
  }

  /** `for vlan in start..=end`. */
  method SeedRange(seeds: seq<Entry>, index: u32, r: Range) returns (out: seq<Entry>)
    ensures out == seeds + Probes(index, Span(r))
  {
    out := seeds;
    var v: int := r.lo;
    while v <= r.hi
      invariant r.lo <= v
      invariant v <= r.hi + 1 || (r.hi < r.lo && v == r.lo)
      invariant v - r.lo <= |Span(r)|
      invariant out == seeds + Probes(index, Span(r)[..v - r.lo])
    {
      assert Span(r)[..v - r.lo + 1] == Span(r)[..v - r.lo] + [Span(r)[v - r.lo]];
      out := out + [Probe(index, v)];
      v := v + 1;
    }
    assert Span(r)[..v - r.lo] == Span(r);
  }

  lemma ExpandTail(ranges: seq<Range>, j: nat)
    requires j < |ranges|
    ensures Expand(ranges[j..]) == Span(ranges[j]) + Expand(ranges[j + 1..])
  {
    assert ranges[j..][1..] == ranges[j + 1..];
  }

  /** `for (start, end) in &vlans`. */
  method SeedNic(seeds: seq<Entry>, index: u32, ranges: seq<Range>) returns (out: seq<Entry>)
    ensures out == seeds + Probes(index, Expand(ranges))
  {
    hide Span, Expand, Probes;
    out := seeds;
    assert ranges[0..] == ranges;
    for j := 0 to |ranges|
      invariant out + Probes(index, Expand(ranges[j..])) == seeds + Probes(index, Expand(ranges))
    {
      ExpandTail(ranges, j);
      ProbesConcat(index, Span(ranges[j]), Expand(ranges[j + 1..]));
      out := SeedRange(out, index, ranges[j]);
    }
    ExpandEmpty(ranges[|ranges|..]);
    assert Probes(index, []) == [];
  }

  lemma ExpandEmpty(ranges: seq<Range>)
    requires ranges == []
    ensures Expand(ranges) == []
  {
  }

  lemma SeedsTail(nics: seq<Interface>, ranges: seq<Range>, i: nat)
    requires i < |nics|
    ensures Seeds(nics[i..], ranges) == Probes(nics[i].index, Expand(ranges)) + Seeds(nics[i + 1..], ranges)
  {
    assert nics[i..][1..] == nics[i + 1..];
  }

  /** The seeding loops of `main`. */
  method SeedProbes(nics: seq<Interface>, ranges: seq<Range>) returns (out: seq<Entry>)
    ensures out == Seeds(nics, ranges)
  {
    hide Probes, Expand;
    out := [];
    assert nics[0..] == nics;
    for i := 0 to |nics|
      invariant out + Seeds(nics[i..], ranges) == Seeds(nics, ranges)
    {
      SeedsTail(nics, ranges, i);
      out := SeedNic(out, nics[i].index, ranges);
    }
  }

  lemma {:induction false} ExpandMembers(ranges: seq<Range>, v: u16)
    ensures v in Expand(ranges) <==> Probed(ranges, v)
  {
    if ranges != [] {
      var r := ranges[0];
      ExpandMembers(ranges[1..], v);
      assert v in Span(r) <==> r.lo <= v <= r.hi by {
        if r.lo <= v <= r.hi {
          assert Span(r)[v - r.lo] == v;
        }
      }
      assert ranges == [r] + ranges[1..];
      if Probed(ranges[1..], v) {
        var i :| 0 <= i < |ranges[1..]| && ranges[1..][i].lo <= v <= ranges[1..][i].hi;
        assert ranges[i + 1] == ranges[1..][i];
      }
    }
  }

  /** A node is seeded with one broadcast probe for each of its interfaces and each VLAN in a range. */
  lemma {:induction false} SeedsExact(nics: seq<Interface>, ranges: seq<Range>, e: Entry)
    ensures e in Seeds(nics, ranges) <==>
            exists k :: 0 <= k < |nics| && e == Probe(nics[k].index, e.peer.vlan) && Probed(ranges, e.peer.vlan)
  {
    if nics != [] {
      var first := Probes(nics[0].index, Expand(ranges));
      SeedsExact(nics[1..], ranges, e);
      ExpandMembers(ranges, e.peer.vlan);
      assert e in first <==> e == Probe(nics[0].index, e.peer.vlan) && e.peer.vlan in Expand(ranges) by {
        if e.peer.vlan in Expand(ranges) {
          var i :| 0 <= i < |Expand(ranges)| && Expand(ranges)[i] == e.peer.vlan;
          assert first[i] == Probe(nics[0].index, e.peer.vlan);
        }
      }
      hide Probed, Expand, Probes;
      assert nics == [nics[0]] + nics[1..];
      assert forall k :: 1 <= k < |nics| ==> nics[k] == nics[1..][k - 1];
    }
  }

  // ---------------------------------------------------------------- how often, and in which order

  lemma {:induction false} ExpandConcat(a: seq<Range>, b: seq<Range>)
    ensures Expand(a + b) == Expand(a) + Expand(b)
  {
    if a == [] {
      ExpandEmpty(a);
      assert a + b == b;
    } else {
      var r, t := a[0], a[1..];
      hide *;
      assert a == [r] + t && a + b == [r] + (t + b);
      ExpandConcat(t, b);
      ExpandCons(r, t);
      ExpandCons(r, t + b);
      Associate(Span(r), Expand(t), Expand(b));
    }
  }

  lemma Associate<T>(a: seq<T>, b: seq<T>, c: seq<T>)
    ensures a + (b + c) == a + b + c
  {
  }

  lemma ExpandOne(r: Range)
    ensures Expand([r]) == Span(r)
  {
    ExpandEmpty([r][1..]);
  }

  /** The ranges one after the other, overlaps included: behind what the first `k` ranges give, range `k` gives
      its numbers upwards, each once. */
  lemma ExpandInOrder(ranges: seq<Range>, k: nat, v: u16)
    requires k < |ranges|
    ensures var r, before, vs := ranges[k], |Expand(ranges[..k])|, Expand(ranges);
      && |Expand(ranges[..k + 1])| == before + (if r.lo <= r.hi then r.hi - r.lo + 1 else 0)
      && (r.lo <= v <= r.hi ==> before + v - r.lo < |vs| && vs[before + v - r.lo] == v)
  {
    var r := ranges[k];
    assert ranges[..k + 1] == ranges[..k] + [r] && ranges == ranges[..k + 1] + ranges[k + 1..];
    ExpandOne(r);
    ExpandConcat(ranges[..k], [r]);
    ExpandConcat(ranges[..k + 1], ranges[k + 1..]);
    hide Expand, Span;
    var a, b, c := Expand(ranges[..k]), Span(r), Expand(ranges[k + 1..]);
    assert Expand(ranges) == a + b + c;
    if r.lo <= v <= r.hi {
      assert (a + b + c)[|a| + (v - r.lo)] == b[v - r.lo];
    }
  }

  /** Told nothing a node probes 1 to 4094 upwards and then the untagged VLAN, each once; told ranges, what they
      list, overlaps included, and then once more the untagged VLAN. */
  lemma ProbesInOrder(asked: seq<Range>)
    ensures var vs := Expand(ProbeRanges([]));
      |vs| == 4095 && vs[4094] == 0 && forall i :: 0 <= i < 4094 ==> vs[i] == i + 1
    ensures asked != [] ==> Expand(ProbeRanges(asked)) == Expand(asked) + [0]
  {
    var base, zero := Range(1, 4094), Range(0, 0);
    assert ProbeRanges([]) == [base] + [zero];
    assert asked != [] ==> ProbeRanges(asked) == asked + [zero];
    assert Span(zero) == [0];
    hide Expand, Span;
    ExpandConcat([base], [zero]);
    ExpandConcat(asked, [zero]);
    ExpandOne(base);
    ExpandOne(zero);
  }

  lemma {:induction false} SeedsConcat(nics: seq<Interface>, ranges: seq<Range>, i: nat)
    requires i <= |nics|
    ensures Seeds(nics, ranges) == Seeds(nics[..i], ranges) + Seeds(nics[i..], ranges)
  {
    hide Expand, Probes;
    if i == 0 {
      assert nics[0..] == nics;
    } else {
      var rest := nics[1..];
      SeedsConcat(rest, ranges, i - 1);
      assert nics[..i][1..] == rest[..i - 1] && rest[i - 1..] == nics[i..];
      var first := Probes(nics[0].index, Expand(ranges));
      assert Seeds(nics, ranges) == first + Seeds(rest, ranges);
      assert Seeds(nics[..i], ranges) == first + Seeds(rest[..i - 1], ranges);
      hide Seeds;
      Associate(first, Seeds(rest[..i - 1], ranges), Seeds(nics[i..], ranges));
    }
  }

  lemma {:induction false} SeedsLength(nics: seq<Interface>, ranges: seq<Range>)
    ensures |Seeds(nics, ranges)| == |nics| * |Expand(ranges)|
  {
    hide Expand, Probes;
    if nics != [] {
      SeedsLength(nics[1..], ranges);
      Distribute(1, |nics| - 1, |Expand(ranges)|);
    }
  }

  lemma Distribute(a: nat, b: nat, m: nat)
    ensures (a + b) * m == a * m + b * m
  {
  }

  /** The queue holds, interface by interface, one broadcast probe without names for each number in turn. */
  lemma SeedsInOrder(nics: seq<Interface>, ranges: seq<Range>, i: nat, j: nat)
    requires i < |nics| && j < |Expand(ranges)|
    ensures var vs, seeds, before := Expand(ranges), Seeds(nics, ranges), |Seeds(nics[..i], ranges)|;
      && |seeds| == |nics| * |vs| && before == i * |vs|
      && before + j < |seeds|
      && seeds[before + j] == Entry(nics[i].index, Peer([], [], [0xff, 0xff, 0xff, 0xff, 0xff, 0xff], vs[j]))
  {
    hide Seeds, Expand, Probes;
    SeedsLength(nics, ranges);
    SeedsLength(nics[..i], ranges);
    SeedsConcat(nics, ranges, i);
    SeedsTail(nics, ranges, i);
    var a, b, c :=
      Seeds(nics[..i], ranges), Probes(nics[i].index, Expand(ranges)), Seeds(nics[i + 1..], ranges);
    assert (a + (b + c))[|a| + j] == b[j];
  }

  // ---------------------------------------------------------------- a node's state

  /** `seeds` is what the seeding loop has still to queue; `arriving` is what receivers have parsed, and
      answered if it was a request, but not yet passed to the topology task. */
  datatype HostState = HostState(
    seeds: seq<Entry>, sendQ: seq<Entry>, arriving: seq<Entry>, topoQ: seq<Entry>, connection: Connections)

  predicate Idle(s: HostState) {
    s.seeds == [] && s.sendQ == [] && s.arriving == [] && s.topoQ == []
  }

  function AfterSeed(s: HostState): HostState
    requires s.seeds != []
  {
    s.(seeds := s.seeds[1..], sendQ := s.sendQ + [s.seeds[0]])
  }

  function AfterSend(s: HostState): HostState
    requires s.sendQ != []
  {
    s.(sendQ := s.sendQ[1..])
  }

  /** The receiver's first send: a request is queued for a reply. */
  function AfterReceive(s: HostState, index: u32, peer: Peer, request: bool): HostState {
    s.(sendQ := if request then s.sendQ + [Entry(index, peer)] else s.sendQ,
       arriving := s.arriving + [Entry(index, peer)])
  }

  /** A receiver's second send: the peer goes to the topology task. */
  function AfterTell(s: HostState, j: nat): HostState
    requires j < |s.arriving|
  {
    s.(arriving := Without(s.arriving, j), topoQ := s.topoQ + [s.arriving[j]])
  }

  function AfterUpdate(host: Name, nics: seq<Interface>, s: HostState): HostState
    requires s.topoQ != []
  {
    s.(topoQ := s.topoQ[1..], connection := Record(host, nics, s.connection, s.topoQ[0]))
  }

  const SEND_BUFFER := 256
  const RECEIVE_BUFFER := 1024

  /** What the sender task does with one entry. */
  datatype Emission = Dropped | Panicked | Emitted(index: u32, frame: seq<u8>)

  function Emit(host: Name, nics: seq<Interface>, e: Entry): Emission {
    match NicAt(nics, e.index)
    case None => Dropped
    case Some(k) =>
      if FrameLength(nics[k].name, host, e.peer.vlan) > SEND_BUFFER then Panicked
      else Emitted(e.index, Image(Zeros(SEND_BUFFER), nics[k], e.peer.mac, e.peer.vlan, host))
  }

  /** What must become of an entry: nothing for an unknown index; otherwise, through the first interface with
      it, a frame laid out over 256 zeros, unless the names leave no room. */
  ghost predicate Sends(host: Name, nics: seq<Interface>, e: Entry, r: Emission) {
    && (r.Dropped? <==> forall k :: 0 <= k < |nics| ==> nics[k].index != e.index)
    && (forall k: nat :: FirstAt(nics, e.index, k) ==>
          && (r.Panicked? <==> |nics[k].name| + |host| > if e.peer.vlan != 0 then 206 else 210)
          && (r.Emitted? ==>
                r.index == e.index && |r.frame| == 256 &&
                Laid(r.frame, Zeros(256), nics[k], e.peer.mac, e.peer.vlan, host)))
  }

  lemma EmitSends(host: Name, nics: seq<Interface>, e: Entry)
    ensures Sends(host, nics, e, Emit(host, nics, e))
  {
    var k := NicAt(nics, e.index);
    NicAtFirst(nics, e.index);
    hide NicAt, FirstAt, Image, Laid, FrameLength;
    if k.Some? {
      ImageLaid(Zeros(SEND_BUFFER), nics[k.value], e.peer.mac, e.peer.vlan, host);
    }
  }

  /** The node with its tasks; each method is one turn of one task's loop. */
  class Daemon {
    const host: Name
    const nics: seq<Interface>
    var seeds: seq<Entry>
    var sendQ: seq<Entry>
    var topoQ: seq<Entry>
    var connection: Connections

    ghost function State(): HostState
      reads this
    {
      HostState(seeds, sendQ, [], topoQ, connection)
    }

    constructor (host: Name, nics: seq<Interface>, asked: seq<Range>)
      ensures this.host == host && this.nics == nics
      ensures State() == HostState(Seeds(nics, ProbeRanges(asked)), [], [], [], map[])
    {
      this.host, this.nics := host, nics;
      sendQ, topoQ, connection := [], [], map[];
      var s := SeedProbes(nics, ProbeRanges(asked));
      seeds := s;
    }

    /** The seeding loop queues its next probe. */
    method Seed()
      requires seeds != []
      modifies this
      ensures State() == AfterSeed(old(State()))
      ensures seeds == old(seeds)[1..] && sendQ == old(sendQ) + [old(seeds)[0]]
      ensures topoQ == old(topoQ) && connection == old(connection)
    {
      sendQ := sendQ + [seeds[0]];
      seeds := seeds[1..];
    }

    /** `recv_packet`: parse what arrived, queue a reply to a request, tell the topology task. */
    method Receive(index: u32, buf: array<u8>)
      requires buf.Length == 1024
      modifies this
      ensures State() == match ParseFrame(buf[..])
                         case Seen(peer, request) => AfterTell(AfterReceive(old(State()), index, peer, request), 0)
                         case _ => old(State())
      ensures !ParseFrame(buf[..]).Panic?
      ensures forall peer, request :: ParseFrame(buf[..]) == Seen(peer, request) ==>
        && sendQ == old(sendQ) + (if request then [Entry(index, peer)] else [])
        && topoQ == old(topoQ) + [Entry(index, peer)]
      ensures ParseFrame(buf[..]).Ignored? ==> sendQ == old(sendQ) && topoQ == old(topoQ)
      ensures seeds == old(seeds) && connection == old(connection)
    {
      ParseTotal(buf[..]);
      var p := Parse(buf);
      hide ParseFrame;
      if p.Seen? {
        if p.request {
          sendQ := sendQ + [Entry(index, p.peer)];
        }
        topoQ := topoQ + [Entry(index, p.peer)];
        assert Without([Entry(index, p.peer)], 0) == [];
      }
    }

    /** `send_packet`: build the frame for the next entry in a fresh zeroed buffer. */
    method SendNext() returns (r: Emission)
      requires sendQ != []
      modifies this
      ensures State() == AfterSend(old(State()))
      ensures sendQ == old(sendQ)[1..]
      ensures seeds == old(seeds) && topoQ == old(topoQ) && connection == old(connection)
      ensures r == Emit(host, nics, old(sendQ)[0])
      ensures Sends(host, nics, old(sendQ)[0], r)
    {
      EmitSends(host, nics, sendQ[0]);
      hide Image, Sends;
      var e := sendQ[0];
      sendQ := sendQ[1..];
      var k := NicAt(nics, e.index);
      if k.None? {
        return Dropped;
      }
      var buf := new u8[SEND_BUFFER](i => 0);
      assert buf[..] == Zeros(SEND_BUFFER);
      var n := Build(buf, nics[k.value], e.peer.mac, e.peer.vlan, host);
      if n.None? {
        return Panicked;
      }
      return Emitted(e.index, buf[..]);
    }

    /** `show_topo`: fold the next message into the map. */
    method UpdateTopology()
      requires topoQ != []
      modifies this
      ensures State() == AfterUpdate(host, nics, old(State()))
      ensures topoQ == old(topoQ)[1..]
      ensures seeds == old(seeds) && sendQ == old(sendQ)
      ensures Updated(host, nics, old(connection), old(topoQ)[0], connection)
    {
      RecordUpdates(host, nics, connection, topoQ[0]);
      hide Updated;
      var e := topoQ[0];
      topoQ := topoQ[1..];
      var k := NicAt(nics, e.index);
      if k.None? {
        return;
      }
      var link := Link(Node(host, nics[k.value]), PeerNode(e.peer));
      if link in connection {
        connection := connection[link := VlanList.Push(connection[link], e.peer.vlan)];
      } else {
        connection := connection[link := [e.peer.vlan]];
      }
    }
  }
}
