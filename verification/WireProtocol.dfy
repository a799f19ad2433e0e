/** The same protocol over bytes: nodes build and parse real frames, bridges route by address and tag. */
module WireProtocol {
  import opened Bytes
  import opened Frame
  import opened Topology
  import opened Daemon
  import opened Discovery
  import opened Causality

  // ---------------------------------------------------------------- frames in flight

  datatype Packet = Packet(bytes: seq<u8>, to: Port)
  datatype WireState = WireState(hosts: seq<HostState>, flight: seq<Packet>)

  /** Besides the protocol's steps, the network may take the tag off a frame in flight. */
  datatype WireStep = Plain(a: Step) | Strip(i: nat)

  /** What the receiver's zeroed buffer holds once the bytes are in it. */
  function Buffered(bytes: seq<u8>): (r: seq<u8>)
    ensures |r| == 1024
    ensures forall i :: 0 <= i < 1024 ==> r[i] == if i < |bytes| then bytes[i] else 0
  {
    if |bytes| <= RECEIVE_BUFFER then bytes + Zeros(RECEIVE_BUFFER - |bytes|) else bytes[..RECEIVE_BUFFER]
  }

  ghost predicate WireShape(c: Config, w: WireState) {
    |w.hosts| == |c.hosts| && forall i :: 0 <= i < |w.flight| ==> IsPort(c, w.flight[i].to)
  }

  predicate HasTag(bytes: seq<u8>) {
    |bytes| >= 16 && Word(bytes, 12) == ETHERTYPE_VLAN
  }

  ghost predicate WireEnabled(c: Config, w: WireState, x: WireStep) {
    match x
    case Plain(a) => Possible(c, w.hosts, |w.flight|, a)
    case Strip(i) => i < |w.flight| && HasTag(w.flight[i].bytes)
  }

  function Packets(bytes: seq<u8>, to: seq<Port>): (r: seq<Packet>)
    ensures |r| == |to| && forall i :: 0 <= i < |to| ==> r[i] == Packet(bytes, to[i])
  {
    seq(|to|, i requires 0 <= i < |to| => Packet(bytes, to[i]))
  }

  /** The sender task's turn, with the frame it hands to the socket; on a panic there is none. */
  function WireSend(c: Config, w: WireState, h: nat, to: seq<Port>): WireState
    requires WireShape(c, w) && WireEnabled(c, w, Plain(Send(h, to)))
  {
    var hosts := w.hosts[h := AfterSend(w.hosts[h])];
    match Emit(c.hosts[h].name, c.hosts[h].nics, w.hosts[h].sendQ[0])
    case Emitted(_, frame) => WireState(hosts, w.flight + Packets(frame, to))
    case _ => w.(hosts := hosts)
  }

  /** The receiver task's turn on the bytes that arrived. */
  function WireDeliver(c: Config, w: WireState, i: nat): WireState
    requires WireShape(c, w) && i < |w.flight|
  {
    var Packet(bytes, p) := w.flight[i];
    var rest := Without(w.flight, i);
    match ParseFrame(Buffered(bytes))
    case Seen(peer, request) =>
      WireState(w.hosts[p.host := AfterReceive(w.hosts[p.host], Nic(c, p).index, peer, request)], rest)
    case _ => w.(flight := rest)
  }

  function WireApply(c: Config, w: WireState, x: WireStep): (r: WireState)
    requires WireShape(c, w) && WireEnabled(c, w, x)
    ensures WireShape(c, r)
  {
    match x
    case Plain(Seed(h)) => w.(hosts := w.hosts[h := AfterSeed(w.hosts[h])])
    case Plain(Send(h, to)) => WireSend(c, w, h, to)
    case Plain(Deliver(i)) => WireDeliver(c, w, i)
    case Plain(Lose(i)) => w.(flight := Without(w.flight, i))
    case Plain(Duplicate(i)) => w.(flight := w.flight + [w.flight[i]])
    case Plain(Tell(h, j)) => w.(hosts := w.hosts[h := AfterTell(w.hosts[h], j)])
    case Plain(Update(h)) =>
      w.(hosts := w.hosts[h := AfterUpdate(c.hosts[h].name, c.hosts[h].nics, w.hosts[h])])
    case Strip(i) => w.(flight := w.flight[i := w.flight[i].(bytes := StripTag(w.flight[i].bytes))])
  }

  /** A bridge looks only at the frame: its destination address and its tag. */
  predicate Forwards(c: Config, p: Port, frame: seq<u8>, t: Port)
    requires |frame| >= 16
  {
    && IsPort(c, t) && p != t && Wire(p, t, TagOn(frame)) in c.wires
    && (frame[..6] == BROADCAST || Nic(c, t).mac == frame[..6])
  }

  ghost predicate ForwardsTo(c: Config, w: WireState, h: nat, to: seq<Port>)
    requires WireShape(c, w) && WireEnabled(c, w, Plain(Send(h, to)))
  {
    var e := w.hosts[h].sendQ[0];
    && Distinct(to)
    && match (Exit(c, h, e), Emit(c.hosts[h].name, c.hosts[h].nics, e))
       case (Some(p), Emitted(_, frame)) => |frame| >= 16 && forall t :: t in to <==> Forwards(c, p, frame, t)
       case _ => true
  }

  ghost predicate ForwardsOnly(c: Config, w: WireState, h: nat, to: seq<Port>)
    requires WireShape(c, w) && WireEnabled(c, w, Plain(Send(h, to)))
  {
    var e := w.hosts[h].sendQ[0];
    match (Exit(c, h, e), Emit(c.hosts[h].name, c.hosts[h].nics, e))
    case (Some(p), Emitted(_, frame)) => |frame| >= 16 && forall t :: t in to ==> Forwards(c, p, frame, t)
    case _ => true
  }

  ghost predicate WireAllowed(c: Config, w: WireState, x: WireStep, n: Network)
    requires WireShape(c, w) && WireEnabled(c, w, x)
  {
    x.Plain? ==>
      match n
      case Hostile => true
      case Routing => x.a.Send? ==> ForwardsOnly(c, w, x.a.h, x.a.to)
      case Lossy => !x.a.Duplicate? && (x.a.Send? ==> Distinct(x.a.to))
      case Lossless => !x.a.Duplicate? && !x.a.Lose? && (x.a.Send? ==> ForwardsTo(c, w, x.a.h, x.a.to))
  }

  ghost predicate WireLegal(c: Config, w: WireState, xs: seq<WireStep>, n: Network)
    requires WireShape(c, w)
    decreases |xs|
  {
    xs != [] ==>
      && WireEnabled(c, w, xs[0])
      && WireAllowed(c, w, xs[0], n)
      && WireLegal(c, WireApply(c, w, xs[0]), xs[1..], n)
  }

  ghost function WireExec(c: Config, w: WireState, xs: seq<WireStep>, n: Network): (r: WireState)
    requires WireShape(c, w) && WireLegal(c, w, xs, n)
    ensures WireShape(c, r)
    decreases |xs|
  {
    if xs == [] then w else WireExec(c, WireApply(c, w, xs[0]), xs[1..], n)
  }

  function WireInit(c: Config): (r: WireState)
    ensures WireShape(c, r)
  {
    WireState(Init(c).hosts, [])
  }

  // ---------------------------------------------------------------- what bytes mean

  /** The names fit the sender's buffer: a tagged frame leaves room for 206 bytes, an untagged one for 210. */
  predicate Fits(nic: Name, host: Name, vlan: u16) {
    |nic| + |host| <= if vlan != 0 then 206 else 210
  }

  function Built(nic: Interface, dst: Mac, vlan: u16, host: Name): (r: seq<u8>)
    requires Fits(nic.name, host, vlan)
    ensures |r| == SEND_BUFFER
  {
    Image(Zeros(SEND_BUFFER), nic, dst, vlan, host)
  }

  /** `bytes` is a frame some interface built to say `m`, with or without its tag. */
  ghost predicate SaysFor(bytes: seq<u8>, m: Msg, nic: Interface, dst: Mac, vlan: u16, host: Name) {
    && Fits(nic.name, host, vlan)
    && Message(nic, dst, vlan, host) == Seen(m.peer, m.request)
    && (bytes == Built(nic, dst, vlan, host) || (vlan != 0 && bytes == StripTag(Built(nic, dst, vlan, host))))
  }

  ghost predicate Says(bytes: seq<u8>, m: Msg) {
    exists nic, dst, vlan, host :: SaysFor(bytes, m, nic, dst, vlan, host)
  }

  lemma SaysFits(bytes: seq<u8>, m: Msg)
    requires Says(bytes, m)
    ensures Fits(m.peer.nic, m.peer.host, m.peer.vlan)
  {
  }

  lemma BuiltParses(nic: Interface, dst: Mac, vlan: u16, host: Name)
    requires Fits(nic.name, host, vlan)
    ensures ParseFrame(Buffered(Built(nic, dst, vlan, host))) == Message(nic, dst, vlan, host)
  {
    hide ParseFrame, Image, Message;
    FrameRoundTrip(Zeros(SEND_BUFFER), Zeros(RECEIVE_BUFFER - SEND_BUFFER), nic, dst, vlan, host);
  }

  lemma StrippedParses(nic: Interface, dst: Mac, vlan: u16, host: Name)
    requires Fits(nic.name, host, vlan) && vlan != 0
    ensures ParseFrame(Buffered(StripTag(Built(nic, dst, vlan, host)))) == Message(nic, dst, vlan, host)
  {
    hide ParseFrame, Image, Message;
    var f, t := Built(nic, dst, vlan, host), Zeros(RECEIVE_BUFFER - SEND_BUFFER + 4);
    StrippedRoundTrip(Zeros(SEND_BUFFER), t, nic, dst, vlan, host);
    assert StripTag(f + t) == StripTag(f) + t;
  }

  /** The receiver reads `m` out of any frame that says it. */
  lemma SaysParses(bytes: seq<u8>, m: Msg)
    requires Says(bytes, m)
    ensures ParseFrame(Buffered(bytes)) == Seen(m.peer, m.request)
  {
    hide ParseFrame, Buffered, Built, Message, StripTag;
    var nic, dst, vlan, host :| SaysFor(bytes, m, nic, dst, vlan, host);
    if bytes == Built(nic, dst, vlan, host) {
      BuiltParses(nic, dst, vlan, host);
    } else {
      StrippedParses(nic, dst, vlan, host);
    }
  }

  lemma BuiltTag(nic: Interface, dst: Mac, vlan: u16, host: Name)
    requires Fits(nic.name, host, vlan)
    ensures var f := Built(nic, dst, vlan, host);
      && TagOn(f) == TagOf(vlan)
      && f[..6] == dst
      && (vlan != 0 ==> !HasTag(StripTag(f)))
  {
    var b, f, h := Zeros(SEND_BUFFER), Built(nic, dst, vlan, host), HeaderLength(vlan);
    ImageEncodes(b, [], nic, dst, vlan, host);
    assert f + [] == f;
    ImageParts(b, nic, dst, vlan, host);
    HeaderBytes(b, nic.mac, dst, vlan);
    hide Image, Header, Payload, ArpFields;
    assert f[..6] == f[..h][..6];
    if vlan != 0 {
      assert Word(StripTag(f), 12) == Word(f, 16);
    }
  }

  /** Taking the tag off does not change what a frame says, and can be done once. */
  lemma StripSays(bytes: seq<u8>, m: Msg)
    requires Says(bytes, m) && HasTag(bytes)
    ensures Says(StripTag(bytes), m) && !HasTag(StripTag(bytes))
  {
    hide Built, Message, StripTag;
    var nic, dst, vlan, host :| SaysFor(bytes, m, nic, dst, vlan, host);
    BuiltTag(nic, dst, vlan, host);
    assert SaysFor(StripTag(bytes), m, nic, dst, vlan, host);
  }

  /** Without room for the names the sender dies on the entry: 206 bytes are the limit for a tagged frame. */
  lemma PanicsExactly(c: Config, h: nat, e: Entry, p: Port)
    requires h < |c.hosts| && Exit(c, h, e) == Some(p)
    ensures Emit(c.hosts[h].name, c.hosts[h].nics, e).Panicked? <==>
            |Nic(c, p).name| + |c.hosts[h].name| > if e.peer.vlan != 0 then 206 else 210
    ensures Emit(c.hosts[h].name, c.hosts[h].nics, e).Panicked? <==>
            !Fits(Nic(c, p).name, c.hosts[h].name, e.peer.vlan)
  {
    hide Image;
  }

  /** The bytes a node emits say the abstract message, and are forwarded where it reaches. */
  lemma EmitSays(c: Config, h: nat, e: Entry, p: Port)
    requires h < |c.hosts| && Exit(c, h, e) == Some(p)
    requires Fits(Nic(c, p).name, c.hosts[h].name, e.peer.vlan)
    ensures var r := Emit(c.hosts[h].name, c.hosts[h].nics, e);
      && r.Emitted? && r.index == Nic(c, p).index && |r.frame| >= 16
      && Says(r.frame, MsgFrom(c, p, e))
      && forall t :: Forwards(c, p, r.frame, t) <==> Reaches(c, p, e.peer.mac, e.peer.vlan, t)
  {
    var nic, host := Nic(c, p), c.hosts[h].name;
    var r := Emit(host, c.hosts[h].nics, e);
    assert r.frame == Built(nic, e.peer.mac, e.peer.vlan, host);
    BuiltTag(nic, e.peer.mac, e.peer.vlan, host);
    hide Built, Emit;
    assert Message(nic, e.peer.mac, e.peer.vlan, host) == Seen(MsgFrom(c, p, e).peer, MsgFrom(c, p, e).request);
    assert SaysFor(r.frame, MsgFrom(c, p, e), nic, e.peer.mac, e.peer.vlan, host);
  }

  // ---------------------------------------------------------------- step by step

  /** Frame by frame, the packets say what the copies carry. */
  ghost predicate Matches(ps: seq<Packet>, xs: seq<Copy>) {
    |ps| == |xs| && forall i :: 0 <= i < |ps| ==> ps[i].to == xs[i].to && Says(ps[i].bytes, xs[i].msg)
  }

  /** Nothing was ever received whose sender would have panicked on it. */
  ghost predicate HeardFits(log: seq<Event>) {
    forall i :: 0 <= i < |log| && log[i].Received? ==>
      Fits(log[i].msg.peer.nic, log[i].msg.peer.host, log[i].msg.peer.vlan)
  }

  ghost predicate Refines(w: WireState, s: State) {
    w.hosts == s.hosts && Matches(w.flight, s.flight) && HeardFits(s.log)
  }

  /** Some node with an interface probes `v`. */
  ghost predicate AskedFor(c: Config, v: u16) {
    exists p :: IsPort(c, p) && Asks(c, p.host, v)
  }

  /** No interface's names are too long for a VLAN that is probed anywhere. */
  ghost predicate NamesFit(c: Config) {
    forall p, v: u16 :: IsPort(c, p) && AskedFor(c, v) ==> Fits(Nic(c, p).name, c.hosts[p.host].name, v)
  }

  /** Whatever is queued or in flight is about a VLAN that is probed somewhere. */
  ghost predicate OnlyAsked(c: Config, s: State) {
    && (forall h, e :: 0 <= h < |s.hosts| && (e in s.hosts[h].seeds || e in s.hosts[h].sendQ) ==>
          AskedFor(c, e.peer.vlan))
    && (forall x :: x in s.flight ==> AskedFor(c, x.msg.peer.vlan))
  }

  /** On a network that must not lose, no sender may panic. */
  ghost predicate NoPanics(c: Config, s: State, n: Network) {
    n == Lossless ==> NamesFit(c) && OnlyAsked(c, s)
  }

  lemma StepKeepsAsked(c: Config, s: State, a: Step)
    requires Shape(c, s) && Enabled(c, s, a) && OnlyAsked(c, s)
    ensures OnlyAsked(c, Apply(c, s, a))
  {
    hide AskedFor;
    if a.Send? {
      assert AskedFor(c, s.hosts[a.h].sendQ[0].peer.vlan);
    } else if a.Deliver? {
      assert AskedFor(c, s.flight[a.i].msg.peer.vlan);
    }
  }

  lemma MatchesAdded(ps: seq<Packet>, xs: seq<Copy>, bytes: seq<u8>, m: Msg, to: seq<Port>)
    requires Matches(ps, xs) && Says(bytes, m)
    ensures Matches(ps + Packets(bytes, to), xs + Copies(m, to))
  {
    hide Says;
  }

  lemma MatchesWithout(ps: seq<Packet>, xs: seq<Copy>, i: nat)
    requires Matches(ps, xs) && i < |ps|
    ensures Matches(Without(ps, i), Without(xs, i))
  {
    hide Says;
  }

  ghost predicate Panics(c: Config, w: WireState, a: Step)
    requires WireShape(c, w) && WireEnabled(c, w, Plain(a))
  {
    a.Send? && Emit(c.hosts[a.h].name, c.hosts[a.h].nics, w.hosts[a.h].sendQ[0]).Panicked?
  }

  /** The protocol step that a step over bytes amounts to: a frame that is never built reaches no one. */
  ghost function Effective(c: Config, w: WireState, a: Step): Step
    requires WireShape(c, w) && WireEnabled(c, w, Plain(a))
  {
    if Panics(c, w, a) then Send(a.h, []) else a
  }

  lemma NeverPanics(c: Config, w: WireState, s: State, a: Step)
    requires NamesFit(c) && OnlyAsked(c, s) && w.hosts == s.hosts && WireShape(c, w) && WireEnabled(c, w, Plain(a))
    ensures !Panics(c, w, a)
  {
    if a.Send? {
      var e := w.hosts[a.h].sendQ[0];
      var x := Exit(c, a.h, e);
      assert AskedFor(c, e.peer.vlan);
      hide AskedFor, Image;
      if x.Some? {
        PanicsExactly(c, a.h, e, x.value);
      }
    }
  }

  lemma SentRefines(c: Config, w: WireState, s: State, h: nat, to: seq<Port>)
    requires WireShape(c, w) && Shape(c, s) && Refines(w, s)
    requires Possible(c, w.hosts, |w.flight|, Send(h, to)) && !Panics(c, w, Send(h, to))
    ensures Refines(WireSend(c, w, h, to), ApplySend(c, s, h, to))
    ensures ForwardsTo(c, w, h, to) <==> ExactReceivers(c, s, h, to)
    ensures ForwardsOnly(c, w, h, to) <==> OnlyReceivers(c, s, h, to)
  {
    var e := s.hosts[h].sendQ[0];
    var x := Exit(c, h, e);
    hide Says, Forwards, Reaches, Matches, Packets, Copies, Distinct, Fits;
    if x.Some? {
      PanicsExactly(c, h, e, x.value);
      EmitSays(c, h, e, x.value);
      var frame := Emit(c.hosts[h].name, c.hosts[h].nics, e).frame;
      MatchesAdded(w.flight, s.flight, frame, MsgFrom(c, x.value, e), to);
    }
  }

  /** Nothing is built and nothing flies; the protocol's sender would have been heard by no one. */
  lemma PanicRefines(c: Config, w: WireState, s: State, h: nat, to: seq<Port>)
    requires WireShape(c, w) && Shape(c, s) && Refines(w, s)
    requires Possible(c, w.hosts, |w.flight|, Send(h, to)) && Panics(c, w, Send(h, to))
    ensures Refines(WireSend(c, w, h, to), ApplySend(c, s, h, []))
  {
    hide Says, Fits, Emit;
    assert forall m :: s.flight + Copies(m, []) == s.flight;
  }

  lemma DeliverRefines(c: Config, w: WireState, s: State, i: nat)
    requires WireShape(c, w) && Shape(c, s) && Refines(w, s) && i < |w.flight|
    ensures Refines(WireDeliver(c, w, i), ApplyDeliver(c, s, i))
  {
    SaysParses(w.flight[i].bytes, s.flight[i].msg);
    SaysFits(w.flight[i].bytes, s.flight[i].msg);
    MatchesWithout(w.flight, s.flight, i);
    hide Says, ParseFrame, Buffered, Without, Fits;
  }

  lemma StripRefines(c: Config, w: WireState, s: State, i: nat)
    requires WireShape(c, w) && Refines(w, s) && WireEnabled(c, w, Strip(i))
    ensures Refines(WireApply(c, w, Strip(i)), s) && !HasTag(WireApply(c, w, Strip(i)).flight[i].bytes)
  {
    StripSays(w.flight[i].bytes, s.flight[i].msg);
    hide Says, StripTag, HasTag;
  }

  lemma SendRefines(c: Config, w: WireState, s: State, a: Step, n: Network)
    requires WireShape(c, w) && Shape(c, s) && Refines(w, s) && NoPanics(c, s, n) && a.Send?
    requires WireEnabled(c, w, Plain(a)) && WireAllowed(c, w, Plain(a), n)
    ensures Enabled(c, s, Effective(c, w, a)) && Allowed(c, s, Effective(c, w, a), n)
    ensures Refines(WireApply(c, w, Plain(a)), Apply(c, s, Effective(c, w, a)))
  {
    if n == Lossless {
      NeverPanics(c, w, s, a);
    }
    hide Says, NamesFit, OnlyAsked, ExactReceivers, ForwardsTo, ForwardsOnly, Matches, HeardFits, Panics,
      WireSend, ApplySend;
    if Panics(c, w, a) {
      PanicRefines(c, w, s, a.h, a.to);
    } else {
      SentRefines(c, w, s, a.h, a.to);
    }
  }

  /** A step over bytes is the protocol step it amounts to, allowed by the same network. */
  lemma PlainRefines(c: Config, w: WireState, s: State, a: Step, n: Network)
    requires WireShape(c, w) && Shape(c, s) && Refines(w, s) && NoPanics(c, s, n)
    requires WireEnabled(c, w, Plain(a)) && WireAllowed(c, w, Plain(a), n)
    ensures Enabled(c, s, Effective(c, w, a)) && Allowed(c, s, Effective(c, w, a), n)
    ensures Refines(WireApply(c, w, Plain(a)), Apply(c, s, Effective(c, w, a)))
  {
    hide Says, NoPanics, Fits;
    if a.Send? {
      SendRefines(c, w, s, a, n);
    } else if a.Deliver? {
      DeliverRefines(c, w, s, a.i);
    } else if a.Lose? {
      MatchesWithout(w.flight, s.flight, a.i);
    }
  }

  lemma StepKeepsNoPanics(c: Config, s: State, a: Step, n: Network)
    requires Shape(c, s) && Enabled(c, s, a) && NoPanics(c, s, n)
    ensures NoPanics(c, Apply(c, s, a), n)
  {
    hide NamesFit, OnlyAsked, Enabled, Apply;
    if n == Lossless {
      StepKeepsAsked(c, s, a);
    }
  }

  /** The protocol steps of a run over bytes: tag stripping leaves no trace. */
  ghost function Project(c: Config, w: WireState, xs: seq<WireStep>, n: Network): seq<Step>
    requires WireShape(c, w) && WireLegal(c, w, xs, n)
    decreases |xs|
  {
    if xs == [] then [] else
      var rest := Project(c, WireApply(c, w, xs[0]), xs[1..], n);
      if xs[0].Strip? then rest else [Effective(c, w, xs[0].a)] + rest
  }

  /** Every run over bytes is a run of the protocol, step for step, with the same node states. */
  lemma {:induction false} WireRunRefines(c: Config, w: WireState, s: State, xs: seq<WireStep>, n: Network)
    requires WireShape(c, w) && Shape(c, s) && Refines(w, s) && NoPanics(c, s, n) && WireLegal(c, w, xs, n)
    ensures Legal(c, s, Project(c, w, xs, n), n)
    ensures Refines(WireExec(c, w, xs, n), Exec(c, s, Project(c, w, xs, n), n))
    decreases |xs|
  {
    hide NoPanics, WireShape, Shape, Refines, WireEnabled, WireAllowed, WireApply, Apply, Enabled, Allowed, Effective;
    if xs != [] {
      var w' := WireApply(c, w, xs[0]);
      if xs[0].Strip? {
        StripRefines(c, w, s, xs[0].i);
        WireRunRefines(c, w', s, xs[1..], n);
      } else {
        var a := Effective(c, w, xs[0].a);
        PlainRefines(c, w, s, xs[0].a, n);
        StepKeepsNoPanics(c, s, a, n);
        WireRunRefines(c, w', Apply(c, s, a), xs[1..], n);
        assert Project(c, w, xs, n)[1..] == Project(c, w', xs[1..], n);
      }
    }
  }

  lemma InitAsked(c: Config)
    ensures OnlyAsked(c, Init(c))
  {
    forall h, e | 0 <= h < |c.hosts| && e in Start(c, h).seeds ensures AskedFor(c, e.peer.vlan) {
      SeedsExact(c.hosts[h].nics, ProbeRanges(c.hosts[h].asked), e);
      hide Seeds, Probed;
      var k :| 0 <= k < |c.hosts[h].nics| && e == Probe(c.hosts[h].nics[k].index, e.peer.vlan) &&
        Probed(ProbeRanges(c.hosts[h].asked), e.peer.vlan);
      assert IsPort(c, Port(h, k)) && Asks(c, Port(h, k).host, e.peer.vlan);
    }
    hide AskedFor, Seeds;
  }

  /** Only a run that must not lose a frame needs names that fit. */
  lemma WireInitRefines(c: Config, xs: seq<WireStep>, n: Network)
    requires WireLegal(c, WireInit(c), xs, n) && (n == Lossless ==> NamesFit(c))
    ensures Legal(c, Init(c), Project(c, WireInit(c), xs, n), n)
    ensures Refines(WireExec(c, WireInit(c), xs, n), Exec(c, Init(c), Project(c, WireInit(c), xs, n), n))
  {
    assert Refines(WireInit(c), Init(c));
    InitAsked(c);
    assert NoPanics(c, Init(c), n);
    hide *;
    WireRunRefines(c, WireInit(c), Init(c), xs, n);
  }
}
