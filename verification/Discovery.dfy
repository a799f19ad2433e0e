/** The discovery protocol as a state machine: nodes running their tasks over a network. */
module Discovery {
  import opened Bytes
  import opened Frame
  import opened Topology
  import opened Daemon
  import opened VlanText

  // ---------------------------------------------------------------- the installation

  /** Interface number `nic` of node number `host`. */
  datatype Port = Port(host: nat, nic: nat)
  datatype Host = Host(name: Name, nics: seq<Interface>, asked: seq<Range>)

  /** Frames leaving `from` under `tag` can arrive at `to`. */
  datatype Wire = Wire(from: Port, to: Port, tag: Tag)
  datatype Config = Config(hosts: seq<Host>, wires: set<Wire>)

  predicate IsPort(c: Config, p: Port) {
    p.host < |c.hosts| && p.nic < |c.hosts[p.host].nics|
  }

  function Nic(c: Config, p: Port): Interface
    requires IsPort(c, p)
  {
    c.hosts[p.host].nics[p.nic]
  }

  /** Interface addresses are distinct and none is the broadcast address; indices are distinct within a node. */
  ghost predicate WellFormed(c: Config) {
    && (forall p :: IsPort(c, p) ==> Nic(c, p).mac != BROADCAST)
    && (forall p, q :: IsPort(c, p) && IsPort(c, q) && Nic(c, p).mac == Nic(c, q).mac ==> p == q)
    && (forall p, q :: IsPort(c, p) && IsPort(c, q) && p.host == q.host && Nic(c, p).index == Nic(c, q).index ==>
          p == q)
  }

  /** Node `h` probes VLAN `v`. */
  predicate Asks(c: Config, h: nat, v: u16)
    requires h < |c.hosts|
  {
    Probed(ProbeRanges(c.hosts[h].asked), v)
  }

  /** How `p` describes itself in a frame for VLAN `v`. */
  function Self(c: Config, p: Port, v: u16): Peer
    requires IsPort(c, p)
  {
    Peer(c.hosts[p.host].name, Nic(c, p).name, Nic(c, p).mac, v)
  }

  /** The map key under which `p` lists `q`: the own end in full, the far end by its names and address. */
  function LinkBetween(c: Config, p: Port, q: Port): Link
    requires IsPort(c, p) && IsPort(c, q)
  {
    Link(Node(c.hosts[p.host].name, Nic(c, p)),
         Node(c.hosts[q.host].name, Interface(0, Nic(c, q).name, Nic(c, q).mac, Up)))
  }

  // ---------------------------------------------------------------- states and steps

  /** What a receiver makes of a frame. */
  datatype Msg = Msg(peer: Peer, request: bool)
  datatype Copy = Copy(msg: Msg, to: Port)
  datatype Event = Sent(from: Port, dst: Mac, msg: Msg) | Received(at: Port, msg: Msg)

  /** `log` is history only: no step reads it. */
  datatype State = State(hosts: seq<HostState>, flight: seq<Copy>, log: seq<Event>)

  datatype Step =
    | Seed(h: nat)
    | Send(h: nat, to: seq<Port>)
    | Deliver(i: nat)
    | Lose(i: nat)
    | Duplicate(i: nat)
    | Tell(h: nat, j: nat)
    | Update(h: nat)

  ghost predicate Shape(c: Config, s: State) {
    |s.hosts| == |c.hosts| && forall i :: 0 <= i < |s.flight| ==> IsPort(c, s.flight[i].to)
  }

  function Start(c: Config, h: nat): HostState
    requires h < |c.hosts|
  {
    HostState(Seeds(c.hosts[h].nics, ProbeRanges(c.hosts[h].asked)), [], [], [], map[])
  }

  function Init(c: Config): (r: State)
    ensures Shape(c, r)
  {
    State(seq(|c.hosts|, h requires 0 <= h < |c.hosts| => Start(c, h)), [], [])
  }

  /** A step that these nodes, with `flying` copies in flight, can take. */
  ghost predicate Possible(c: Config, hosts: seq<HostState>, flying: nat, a: Step) {
    match a
    case Seed(h) => h < |hosts| && hosts[h].seeds != []
    case Send(h, to) => h < |hosts| && hosts[h].sendQ != [] && forall i :: 0 <= i < |to| ==> IsPort(c, to[i])
    case Tell(h, j) => h < |hosts| && j < |hosts[h].arriving|
    case Update(h) => h < |hosts| && hosts[h].topoQ != []
    case _ => a.i < flying
  }

  ghost predicate Enabled(c: Config, s: State, a: Step) {
    Possible(c, s.hosts, |s.flight|, a)
  }

  /** The port an entry leaves through. */
  function Exit(c: Config, h: nat, e: Entry): (r: Option<Port>)
    requires h < |c.hosts|
    ensures r.Some? ==> IsPort(c, r.value) && r.value.host == h && Nic(c, r.value).index == e.index
    ensures r.None? ==> forall p :: IsPort(c, p) && p.host == h ==> Nic(c, p).index != e.index
  {
    match NicAt(c.hosts[h].nics, e.index)
    case None => None
    case Some(k) => Some(Port(h, k))
  }

  function MsgFrom(c: Config, p: Port, e: Entry): Msg
    requires IsPort(c, p)
  {
    Msg(Self(c, p, e.peer.vlan), e.peer.mac == BROADCAST)
  }

  function Copies(m: Msg, to: seq<Port>): (r: seq<Copy>)
    ensures |r| == |to| && forall i :: 0 <= i < |to| ==> r[i] == Copy(m, to[i])
  {
    seq(|to|, i requires 0 <= i < |to| => Copy(m, to[i]))
  }

  function ApplySend(c: Config, s: State, h: nat, to: seq<Port>): State
    requires Shape(c, s) && Enabled(c, s, Send(h, to))
  {
    var e := s.hosts[h].sendQ[0];
    var hosts := s.hosts[h := AfterSend(s.hosts[h])];
    match Exit(c, h, e)
    case None => s.(hosts := hosts)
    case Some(p) =>
      State(hosts, s.flight + Copies(MsgFrom(c, p, e), to), s.log + [Sent(p, e.peer.mac, MsgFrom(c, p, e))])
  }

  function ApplyDeliver(c: Config, s: State, i: nat): State
    requires Shape(c, s) && i < |s.flight|
  {
    var Copy(m, p) := s.flight[i];
    State(s.hosts[p.host := AfterReceive(s.hosts[p.host], Nic(c, p).index, m.peer, m.request)],
          Without(s.flight, i), s.log + [Received(p, m)])
  }

  function Apply(c: Config, s: State, a: Step): (r: State)
    requires Shape(c, s) && Enabled(c, s, a)
    ensures Shape(c, r)
  {
    match a
    case Seed(h) => s.(hosts := s.hosts[h := AfterSeed(s.hosts[h])])
    case Send(h, to) => ApplySend(c, s, h, to)
    case Deliver(i) => ApplyDeliver(c, s, i)
    case Lose(i) => s.(flight := Without(s.flight, i))
    case Duplicate(i) => s.(flight := s.flight + [s.flight[i]])
    case Tell(h, j) => s.(hosts := s.hosts[h := AfterTell(s.hosts[h], j)])
    case Update(h) =>
      s.(hosts := s.hosts[h := AfterUpdate(c.hosts[h].name, c.hosts[h].nics, s.hosts[h])])
  }

  // ---------------------------------------------------------------- networks and runs

  /** Link `p` to `t` carries the frame that announces `v`. */
  predicate Carries(c: Config, p: Port, t: Port, v: u16) {
    p != t && Wire(p, t, TagOf(v)) in c.wires
  }

  /** A broadcast reaches every port the wires lead to; a reply only its addressee among them. */
  predicate Reaches(c: Config, p: Port, dst: Mac, v: u16, t: Port) {
    IsPort(c, t) && Carries(c, p, t, v) && (dst == BROADCAST || Nic(c, t).mac == dst)
  }

  ghost predicate Distinct<T>(s: seq<T>) {
    forall i, j :: 0 <= i < j < |s| ==> s[i] != s[j]
  }

  ghost predicate ExactReceivers(c: Config, s: State, h: nat, to: seq<Port>)
    requires Shape(c, s) && Enabled(c, s, Send(h, to))
  {
    var e := s.hosts[h].sendQ[0];
    && Distinct(to)
    && match Exit(c, h, e)
       case None => true
       case Some(p) => forall t :: t in to <==> Reaches(c, p, e.peer.mac, e.peer.vlan, t)
  }

  ghost predicate OnlyReceivers(c: Config, s: State, h: nat, to: seq<Port>)
    requires Shape(c, s) && Enabled(c, s, Send(h, to))
  {
    var e := s.hosts[h].sendQ[0];
    match Exit(c, h, e)
    case None => true
    case Some(p) => forall t :: t in to ==> Reaches(c, p, e.peer.mac, e.peer.vlan, t)
  }

  /** `Hostile` may lose, repeat and misdeliver; `Routing` may lose and repeat, but delivers only to ports
      reached; `Lossy` may lose and misdeliver, once per port; `Lossless` delivers once to exactly the ports
      reached. Every one of them may reorder. */
  datatype Network = Hostile | Routing | Lossy | Lossless

  ghost predicate Allowed(c: Config, s: State, a: Step, n: Network)
    requires Shape(c, s) && Enabled(c, s, a)
  {
    match n
    case Hostile => true
    case Routing => a.Send? ==> OnlyReceivers(c, s, a.h, a.to)
    case Lossy => !a.Duplicate? && (a.Send? ==> Distinct(a.to))
    case Lossless => !a.Duplicate? && !a.Lose? && (a.Send? ==> ExactReceivers(c, s, a.h, a.to))
  }

  ghost predicate Legal(c: Config, s: State, steps: seq<Step>, n: Network)
    requires Shape(c, s)
    decreases |steps|
  {
    steps != [] ==>
      && Enabled(c, s, steps[0])
      && Allowed(c, s, steps[0], n)
      && Legal(c, Apply(c, s, steps[0]), steps[1..], n)
  }

  ghost function Exec(c: Config, s: State, steps: seq<Step>, n: Network): (r: State)
    requires Shape(c, s) && Legal(c, s, steps, n)
    ensures Shape(c, r)
    decreases |steps|
  {
    if steps == [] then s else Exec(c, Apply(c, s, steps[0]), steps[1..], n)
  }

  /** Nothing is queued and nothing is in flight. */
  ghost predicate Quiescent(s: State) {
    s.flight == [] && forall h :: 0 <= h < |s.hosts| ==> Idle(s.hosts[h])
  }
}
