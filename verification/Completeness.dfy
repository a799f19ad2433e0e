/** On a lossless network, a quiescent state lists exactly the links and VLANs there are. */
module Completeness {
  import opened Bytes
  import opened Frame
  import opened VlanList
  import opened Topology
  import opened Daemon
  import opened Discovery
  import opened Causality

  /** What `p` should list for `q`: VLANs that reach it from `q`, and that `q` probed on its own account or
      as the answer to a probe of `p` that reached it. */
  predicate Expected(c: Config, p: Port, q: Port, v: u16)
    requires IsPort(c, p) && IsPort(c, q)
  {
    Carries(c, q, p, v) && (Asks(c, q.host, v) || (Asks(c, p.host, v) && Carries(c, p, q, v)))
  }

  // ---------------------------------------------------------------- nothing more than expected

  /** Some sender's frame `m` was due at `t`. */
  ghost predicate Routed(c: Config, log: seq<Event>, m: Msg, t: Port) {
    exists q, dst :: Sent(q, dst, m) in log && Reaches(c, q, dst, m.peer.vlan, t)
  }

  ghost predicate AllRouted(c: Config, s: State) {
    && (forall x :: x in s.flight ==> Routed(c, s.log, x.msg, x.to))
    && (forall p, m :: Received(p, m) in s.log ==> Routed(c, s.log, m, p))
  }

  lemma RoutedAppend(c: Config, log: seq<Event>, ev: Event, m: Msg, t: Port)
    requires Routed(c, log, m, t)
    ensures Routed(c, log + [ev], m, t)
  {
    var q, dst :| Sent(q, dst, m) in log && Reaches(c, q, dst, m.peer.vlan, t);
    assert Sent(q, dst, m) in log + [ev];
  }

  lemma LogAppend(c: Config, s: State, ev: Event)
    requires AllRouted(c, s)
    requires ev.Received? ==> Routed(c, s.log, ev.msg, ev.at)
    ensures AllRouted(c, s.(log := s.log + [ev]))
  {
    hide Routed;
    forall x | x in s.flight ensures Routed(c, s.log + [ev], x.msg, x.to) {
      RoutedAppend(c, s.log, ev, x.msg, x.to);
    }
    forall p, m | Received(p, m) in s.log + [ev] ensures Routed(c, s.log + [ev], m, p) {
      RoutedAppend(c, s.log, ev, m, p);
    }
  }

  lemma SendKeepsRouted(c: Config, s: State, h: nat, to: seq<Port>)
    requires Shape(c, s) && AllRouted(c, s) && Enabled(c, s, Send(h, to)) && OnlyReceivers(c, s, h, to)
    ensures AllRouted(c, ApplySend(c, s, h, to))
  {
    var e := s.hosts[h].sendQ[0];
    var x := Exit(c, h, e);
    if x.Some? {
      var m := MsgFrom(c, x.value, e);
      var ev := Sent(x.value, e.peer.mac, m);
      var r := ApplySend(c, s, h, to);
      LogAppend(c, s, ev);
      assert r.log[|s.log|] == ev;
      assert forall t :: t in to ==> Routed(c, r.log, m, t);
    }
  }

  lemma StepKeepsRouted(c: Config, s: State, a: Step)
    requires Shape(c, s) && AllRouted(c, s) && Enabled(c, s, a) && Allowed(c, s, a, Routing)
    ensures AllRouted(c, Apply(c, s, a))
  {
    if a.Send? {
      SendKeepsRouted(c, s, a.h, a.to);
    } else if a.Deliver? {
      LogAppend(c, s, Received(s.flight[a.i].to, s.flight[a.i].msg));
    }
  }

  lemma LosslessRoutes(c: Config, s: State, a: Step)
    requires Shape(c, s) && Enabled(c, s, a) && Allowed(c, s, a, Lossless)
    ensures Allowed(c, s, a, Routing)
  {
  }

  /** A request that arrived at `q` was sent by the port with that address, for a VLAN it probes. */
  lemma RequestRouted(c: Config, s: State, q: Port, dst: Mac, v: u16, k: nat)
    requires Sound(c, s) && AllRouted(c, s) && k < |s.log| && RequestAt(s.log[k], q, dst, v)
    ensures exists r :: IsPort(c, r) && Nic(c, r).mac == dst && Asks(c, r.host, v) && Carries(c, r, q, v)
  {
    var g := s.log[k].msg;
    assert Received(q, g) in s.log;
    var r, d :| Sent(r, d, g) in s.log && Reaches(c, r, d, v, q);
    var l :| 0 <= l < |s.log| && s.log[l] == Sent(r, d, g);
    assert Caused(c, s.log, l);
  }

  /** What arrives at `p` comes from a real interface and was to be expected there. */
  lemma ReceivedExpected(c: Config, s: State, p: Port, m: Msg)
    requires WellFormed(c) && Sound(c, s) && AllRouted(c, s) && Received(p, m) in s.log
    ensures IsPort(c, p)
    ensures exists q :: IsPort(c, q) && m.peer == Self(c, q, m.peer.vlan) && Expected(c, p, q, m.peer.vlan)
  {
    var log, v := s.log, m.peer.vlan;
    var q, dst :| Sent(q, dst, m) in log && Reaches(c, q, dst, v, p);
    var j :| 0 <= j < |log| && log[j] == Sent(q, dst, m);
    assert Caused(c, log, j);
    if !m.request {
      var k :| 0 <= k < j && RequestAt(log[k], q, dst, v);
      RequestRouted(c, s, q, dst, v, k);
      hide Sound, AllRouted, Caused, RequestAt;
      var r :| IsPort(c, r) && Nic(c, r).mac == dst && Asks(c, r.host, v) && Carries(c, r, q, v);
      assert r == p;
    }
  }

  // ---------------------------------------------------------------- nothing less than expected

  ghost predicate ProbeQueued(c: Config, s: State, q: Port, v: u16)
    requires Shape(c, s) && IsPort(c, q)
  {
    var e := Probe(Nic(c, q).index, v);
    e in s.hosts[q.host].seeds || e in s.hosts[q.host].sendQ
  }

  /** `q` still has to answer `p`. */
  ghost predicate ReplyQueued(c: Config, s: State, q: Port, p: Port, v: u16)
    requires Shape(c, s) && IsPort(c, p) && IsPort(c, q)
  {
    Entry(Nic(c, q).index, Self(c, p, v)) in s.hosts[q.host].sendQ
  }

  ghost predicate Flying(c: Config, s: State, q: Port, p: Port, v: u16, request: bool)
    requires IsPort(c, q)
  {
    Copy(Msg(Self(c, q, v), request), p) in s.flight
  }

  /** `p` lists `q` on `v`, or has it on its way to the topology task. */
  ghost predicate Known(c: Config, s: State, p: Port, q: Port, v: u16)
    requires Shape(c, s) && IsPort(c, p) && IsPort(c, q)
  {
    || Entry(Nic(c, p).index, Self(c, q, v)) in s.hosts[p.host].arriving
    || Entry(Nic(c, p).index, Self(c, q, v)) in s.hosts[p.host].topoQ
    || Lists(s.hosts[p.host].connection, LinkBetween(c, p, q), v)
  }

  /** The announcement of `v` from `q` to `p` is under way or has arrived. */
  ghost predicate Underway(c: Config, s: State, p: Port, q: Port, v: u16)
    requires Shape(c, s) && IsPort(c, p) && IsPort(c, q)
  {
    || Known(c, s, p, q, v)
    || Flying(c, s, q, p, v, true) || Flying(c, s, q, p, v, false)
    || ReplyQueued(c, s, q, p, v)
  }

  /** Everything expected is still to be asked, has been asked, or is under way. */
  ghost predicate Promised(c: Config, s: State, p: Port, q: Port, v: u16)
    requires Shape(c, s) && IsPort(c, p) && IsPort(c, q)
  {
    Expected(c, p, q, v) ==>
      || Underway(c, s, p, q, v)
      || (Asks(c, q.host, v) && ProbeQueued(c, s, q, v))
      || (Carries(c, p, q, v) && (ProbeQueued(c, s, p, v) || Flying(c, s, p, q, v, true)))
  }

  lemma InitPromised(c: Config, p: Port, q: Port, v: u16)
    requires IsPort(c, p) && IsPort(c, q)
    ensures Promised(c, Init(c), p, q, v)
  {
    var s := Init(c);
    SeedsExact(c.hosts[p.host].nics, ProbeRanges(c.hosts[p.host].asked), Probe(Nic(c, p).index, v));
    SeedsExact(c.hosts[q.host].nics, ProbeRanges(c.hosts[q.host].asked), Probe(Nic(c, q).index, v));
    assert s.hosts[p.host] == Start(c, p.host) && s.hosts[q.host] == Start(c, q.host);
    assert Probe(Nic(c, p).index, v).peer.vlan == v;
    hide Seeds;
  }

  /** An entry stays queued until it is the one the sender takes. */
  lemma QueuedStays(c: Config, s: State, a: Step, h: nat, e: Entry)
    requires Shape(c, s) && Enabled(c, s, a) && h < |s.hosts|
    ensures var r := Apply(c, s, a);
      && (e in s.hosts[h].seeds ==> e in r.hosts[h].seeds || e in r.hosts[h].sendQ)
      && (e in s.hosts[h].sendQ ==> e in r.hosts[h].sendQ || (a.Send? && a.h == h && s.hosts[h].sendQ[0] == e))
  {
  }

  /** What the sender takes flies to every port it reaches. */
  lemma SendReaches(c: Config, s: State, a: Step, e: Entry, q: Port, t: Port)
    requires WellFormed(c) && Shape(c, s) && Enabled(c, s, a) && Allowed(c, s, a, Lossless)
    requires IsPort(c, q) && IsPort(c, t) && Nic(c, q).index == e.index
    requires a.Send? && a.h == q.host && s.hosts[a.h].sendQ[0] == e
    requires Reaches(c, q, e.peer.mac, e.peer.vlan, t)
    ensures Copy(MsgFrom(c, q, e), t) in Apply(c, s, a).flight
  {
    ExitIsPort(c, q, e);
    hide Reaches, WellFormed;
    var i :| 0 <= i < |a.to| && a.to[i] == t;
    assert Apply(c, s, a).flight[|s.flight| + i] == Copy(MsgFrom(c, q, e), t);
  }

  /** A probe leaves its queue only to fly to every port it reaches. */
  lemma ProbeAdvances(c: Config, s: State, a: Step, q: Port, t: Port, v: u16)
    requires WellFormed(c) && Shape(c, s) && Enabled(c, s, a) && Allowed(c, s, a, Lossless)
    requires IsPort(c, q) && IsPort(c, t) && Carries(c, q, t, v) && ProbeQueued(c, s, q, v)
    ensures var r := Apply(c, s, a); ProbeQueued(c, r, q, v) || Flying(c, r, q, t, v, true)
  {
    var e := Probe(Nic(c, q).index, v);
    hide WellFormed, Enabled, Allowed, Apply, Carries;
    QueuedStays(c, s, a, q.host, e);
    if a.Send? && a.h == q.host && s.hosts[q.host].sendQ[0] == e {
      SendReaches(c, s, a, e, q, t);
    }
  }

  lemma ReplyAdvances(c: Config, s: State, a: Step, q: Port, p: Port, v: u16)
    requires WellFormed(c) && Shape(c, s) && Enabled(c, s, a) && Allowed(c, s, a, Lossless)
    requires IsPort(c, p) && IsPort(c, q) && Carries(c, q, p, v) && ReplyQueued(c, s, q, p, v)
    ensures var r := Apply(c, s, a); ReplyQueued(c, r, q, p, v) || Flying(c, r, q, p, v, false)
  {
    var e := Entry(Nic(c, q).index, Self(c, p, v));
    assert e.peer.mac != BROADCAST;
    hide WellFormed, Enabled, Allowed, Apply, Carries;
    QueuedStays(c, s, a, q.host, e);
    if a.Send? && a.h == q.host && s.hosts[q.host].sendQ[0] == e {
      SendReaches(c, s, a, e, q, p);
    }
  }

  lemma FlightAdvances(c: Config, s: State, a: Step, q: Port, p: Port, v: u16, request: bool)
    requires Shape(c, s) && Enabled(c, s, a) && Allowed(c, s, a, Lossless)
    requires IsPort(c, p) && IsPort(c, q) && Flying(c, s, q, p, v, request)
    ensures var r := Apply(c, s, a);
      || Flying(c, r, q, p, v, request)
      || (Known(c, r, p, q, v) && (request ==> ReplyQueued(c, r, p, q, v)))
  {
    var r := Apply(c, s, a);
    var x := Copy(Msg(Self(c, q, v), request), p);
    if a.Deliver? && s.flight[a.i] == x {
      var e := Entry(Nic(c, p).index, Self(c, q, v));
      assert r.hosts[p.host] == AfterReceive(s.hosts[p.host], e.index, e.peer, request);
      assert r.hosts[p.host].arriving[|s.hosts[p.host].arriving|] == e;
      assert request ==> r.hosts[p.host].sendQ[|s.hosts[p.host].sendQ|] == e;
    }
  }

  lemma UpdateKeeps(c: Config, p: Port, q: Port, v: u16, s: HostState)
    requires WellFormed(c) && IsPort(c, p) && IsPort(c, q) && s.topoQ != [] && Tidy(s.connection)
    ensures var r := AfterUpdate(c.hosts[p.host].name, c.hosts[p.host].nics, s);
      var e, k := Entry(Nic(c, p).index, Self(c, q, v)), LinkBetween(c, p, q);
      && (Lists(s.connection, k, v) ==> Lists(r.connection, k, v))
      && (e in s.topoQ ==> e in r.topoQ || Lists(r.connection, k, v))
  {
    var first := s.topoQ[0];
    RecordAddsMember(c.hosts[p.host].name, c.hosts[p.host].nics, s.connection, first);
    if first == Entry(Nic(c, p).index, Self(c, q, v)) {
      ExitIsPort(c, p, first);
    }
    hide Record, Lists, Tidy, WellFormed;
  }

  lemma TellPasses(s: HostState, j: nat, e: Entry)
    requires j < |s.arriving|
    ensures e in s.arriving ==> e in AfterTell(s, j).arriving || e in AfterTell(s, j).topoQ
    ensures e in s.topoQ ==> e in AfterTell(s, j).topoQ
  {
  }

  lemma KnownStays(c: Config, s: State, a: Step, p: Port, q: Port, v: u16)
    requires WellFormed(c) && Sound(c, s) && Enabled(c, s, a)
    requires IsPort(c, p) && IsPort(c, q) && Known(c, s, p, q, v)
    ensures Known(c, Apply(c, s, a), p, q, v)
  {
    assert HostOk(c, s.log, p.host, s.hosts[p.host]);
    hide WellFormed, Sound, Lists, LinkBetween, Record, Self, AllCaused, WasSent;
    if a.Update? && a.h == p.host {
      UpdateKeeps(c, p, q, v, s.hosts[p.host]);
    } else if a.Tell? && a.h == p.host {
      TellPasses(s.hosts[p.host], a.j, Entry(Nic(c, p).index, Self(c, q, v)));
    }
  }

  lemma UnderwayStays(c: Config, s: State, a: Step, p: Port, q: Port, v: u16)
    requires WellFormed(c) && Sound(c, s) && Enabled(c, s, a) && Allowed(c, s, a, Lossless)
    requires IsPort(c, p) && IsPort(c, q) && Carries(c, q, p, v) && Underway(c, s, p, q, v)
    ensures Underway(c, Apply(c, s, a), p, q, v)
  {
    assert Shape(c, s);
    hide Enabled, Allowed, Apply, WellFormed, Sound, Carries, Known, Flying, ReplyQueued;
    if Known(c, s, p, q, v) {
      KnownStays(c, s, a, p, q, v);
    } else if Flying(c, s, q, p, v, true) {
      FlightAdvances(c, s, a, q, p, v, true);
    } else if Flying(c, s, q, p, v, false) {
      FlightAdvances(c, s, a, q, p, v, false);
    } else {
      ReplyAdvances(c, s, a, q, p, v);
    }
  }

  lemma StepKeepsPromise(c: Config, s: State, a: Step, p: Port, q: Port, v: u16)
    requires WellFormed(c) && Sound(c, s) && Enabled(c, s, a) && Allowed(c, s, a, Lossless)
    requires IsPort(c, p) && IsPort(c, q) && Promised(c, s, p, q, v)
    ensures Promised(c, Apply(c, s, a), p, q, v)
  {
    if Expected(c, p, q, v) {
      hide Enabled, Allowed, Apply, WellFormed, Sound, Carries, Known, Flying, ReplyQueued, ProbeQueued;
      if Underway(c, s, p, q, v) {
        UnderwayStays(c, s, a, p, q, v);
      } else if Asks(c, q.host, v) && ProbeQueued(c, s, q, v) {
        ProbeAdvances(c, s, a, q, p, v);
      } else if ProbeQueued(c, s, p, v) {
        ProbeAdvances(c, s, a, p, q, v);
      } else {
        FlightAdvances(c, s, a, p, q, v, true);
      }
    }
  }

  // ---------------------------------------------------------------- whole runs

  ghost predicate Faithful(c: Config, s: State) {
    && Sound(c, s)
    && AllRouted(c, s)
    && forall p, q, v :: IsPort(c, p) && IsPort(c, q) ==> Promised(c, s, p, q, v)
  }

  lemma StepKeepsFaithful(c: Config, s: State, a: Step)
    requires WellFormed(c) && Faithful(c, s) && Enabled(c, s, a) && Allowed(c, s, a, Lossless)
    ensures Faithful(c, Apply(c, s, a))
  {
    assert Shape(c, s);
    hide Promised, Sound, AllRouted, Enabled, Allowed, Apply, WellFormed;
    StepKeepsSound(c, s, a);
    LosslessRoutes(c, s, a);
    StepKeepsRouted(c, s, a);
    forall p, q, v | IsPort(c, p) && IsPort(c, q) ensures Promised(c, Apply(c, s, a), p, q, v) {
      StepKeepsPromise(c, s, a, p, q, v);
    }
  }

  lemma {:induction false} RunKeepsFaithful(c: Config, s: State, steps: seq<Step>)
    requires WellFormed(c) && Faithful(c, s) && Legal(c, s, steps, Lossless)
    ensures Faithful(c, Exec(c, s, steps, Lossless))
    decreases |steps|
  {
    assert Shape(c, s);
    hide Faithful, Enabled, Apply, Allowed, WellFormed;
    if steps != [] {
      StepKeepsFaithful(c, s, steps[0]);
      RunKeepsFaithful(c, Apply(c, s, steps[0]), steps[1..]);
    }
  }

  lemma InitFaithful(c: Config)
    ensures Faithful(c, Init(c))
  {
    InitSound(c);
    hide Promised;
    forall p, q, v | IsPort(c, p) && IsPort(c, q) ensures Promised(c, Init(c), p, q, v) {
      InitPromised(c, p, q, v);
    }
  }

  // ---------------------------------------------------------------- the results

  lemma ListedExpected(c: Config, s: State, h: nat, k: Link, v: u16)
    requires WellFormed(c) && Sound(c, s) && AllRouted(c, s)
    requires h < |c.hosts| && Lists(s.hosts[h].connection, k, v)
    ensures exists p, q ::
      IsPort(c, p) && IsPort(c, q) && p.host == h && k == LinkBetween(c, p, q) && Expected(c, p, q, v)
  {
    assert HostOk(c, s.log, h, s.hosts[h]);
    var p, m :| IsPort(c, p) && p.host == h && Received(p, m) in s.log && m.peer.vlan == v &&
      k == Link(Node(c.hosts[h].name, Nic(c, p)), PeerNode(m.peer));
    ReceivedExpected(c, s, p, m);
    hide Expected;
    var q :| IsPort(c, q) && m.peer == Self(c, q, v) && Expected(c, p, q, v);
    assert k == LinkBetween(c, p, q);
  }

  lemma {:induction false} RunKeepsRouted(c: Config, s: State, steps: seq<Step>)
    requires WellFormed(c) && Sound(c, s) && AllRouted(c, s) && Legal(c, s, steps, Routing)
    ensures Sound(c, Exec(c, s, steps, Routing)) && AllRouted(c, Exec(c, s, steps, Routing))
    decreases |steps|
  {
    assert Shape(c, s);
    hide Sound, AllRouted, Enabled, Apply, Allowed, WellFormed;
    if steps != [] {
      StepKeepsSound(c, s, steps[0]);
      StepKeepsRouted(c, s, steps[0]);
      RunKeepsRouted(c, Apply(c, s, steps[0]), steps[1..]);
    }
  }

  /** At every moment of every run, whatever is lost, repeated or reordered on the way, a node lists only
      links of the installation, each with VLANs expected on it. */
  lemma NeverWrong(c: Config, steps: seq<Step>, h: nat, k: Link, v: u16)
    requires WellFormed(c) && Legal(c, Init(c), steps, Routing)
    requires h < |c.hosts| && Lists(Exec(c, Init(c), steps, Routing).hosts[h].connection, k, v)
    ensures exists p, q ::
      IsPort(c, p) && IsPort(c, q) && p.host == h && k == LinkBetween(c, p, q) && Expected(c, p, q, v)
  {
    InitFaithful(c);
    RunKeepsRouted(c, Init(c), steps);
    hide Lists, Exec, Legal, WellFormed;
    ListedExpected(c, Exec(c, Init(c), steps, Routing), h, k, v);
  }

  lemma LinkNames(c: Config, p: Port, q: Port, p': Port, q': Port)
    requires WellFormed(c) && IsPort(c, p) && IsPort(c, q) && IsPort(c, p') && IsPort(c, q')
    requires LinkBetween(c, p, q) == LinkBetween(c, p', q')
    ensures p == p' && q == q'
  {
  }

  lemma ExpectedListed(c: Config, s: State, p: Port, q: Port, v: u16)
    requires Shape(c, s) && IsPort(c, p) && IsPort(c, q) && Quiescent(s)
    requires Promised(c, s, p, q, v) && Expected(c, p, q, v)
    ensures Lists(s.hosts[p.host].connection, LinkBetween(c, p, q), v)
  {
    hide Expected, Lists, LinkBetween;
  }

  lemma AtRestExact(c: Config, s: State, p: Port, q: Port, v: u16)
    requires WellFormed(c) && Faithful(c, s) && Quiescent(s) && IsPort(c, p) && IsPort(c, q)
    ensures Lists(s.hosts[p.host].connection, LinkBetween(c, p, q), v) <==> Expected(c, p, q, v)
  {
    var k := LinkBetween(c, p, q);
    assert Promised(c, s, p, q, v) && Shape(c, s);
    hide Expected, Sound, AllRouted, Promised, LinkBetween, Quiescent, Lists, WellFormed;
    if Expected(c, p, q, v) {
      ExpectedListed(c, s, p, q, v);
    }
    if Lists(s.hosts[p.host].connection, k, v) {
      ListedExpected(c, s, p.host, k, v);
      var p', q' :| IsPort(c, p') && IsPort(c, q') && p'.host == p.host &&
        k == LinkBetween(c, p', q') && Expected(c, p', q', v);
      LinkNames(c, p, q, p', q');
    }
  }

  /** At rest after any lossless run, whatever its order, `p` lists `q` on exactly the expected VLANs. */
  lemma QuiescentExact(c: Config, steps: seq<Step>, p: Port, q: Port, v: u16)
    requires WellFormed(c) && Legal(c, Init(c), steps, Lossless) && IsPort(c, p) && IsPort(c, q)
    requires Quiescent(Exec(c, Init(c), steps, Lossless))
    ensures Lists(Exec(c, Init(c), steps, Lossless).hosts[p.host].connection, LinkBetween(c, p, q), v) <==>
            Expected(c, p, q, v)
  {
    hide *;
    InitFaithful(c);
    RunKeepsFaithful(c, Init(c), steps);
    AtRestExact(c, Exec(c, Init(c), steps, Lossless), p, q, v);
  }

  /** The VLANs printed for a link; none when the map has no such key. */
  function Vlans(m: Connections, k: Link): seq<u16> {
    if k in m then m[k] else []
  }

  ghost predicate TwoWay(c: Config) {
    forall w :: w in c.wires ==> Wire(w.to, w.from, w.tag) in c.wires
  }

  /** Over two-way links both ends print the same ascending list: the carried VLANs either end probed. */
  lemma QuiescentSymmetric(c: Config, steps: seq<Step>, p: Port, q: Port)
    requires WellFormed(c) && TwoWay(c) && Legal(c, Init(c), steps, Lossless) && IsPort(c, p) && IsPort(c, q)
    requires Quiescent(Exec(c, Init(c), steps, Lossless))
    ensures var s := Exec(c, Init(c), steps, Lossless);
      var there := Vlans(s.hosts[p.host].connection, LinkBetween(c, p, q));
      && there == Vlans(s.hosts[q.host].connection, LinkBetween(c, q, p))
      && Ascending(there)
      && forall v :: v in there <==> Carries(c, p, q, v) && (Asks(c, p.host, v) || Asks(c, q.host, v))
  {
    var s := Exec(c, Init(c), steps, Lossless);
    var there := Vlans(s.hosts[p.host].connection, LinkBetween(c, p, q));
    var back := Vlans(s.hosts[q.host].connection, LinkBetween(c, q, p));
    InitSound(c);
    RunKeepsSound(c, Init(c), steps, Lossless);
    assert HostOk(c, s.log, p.host, s.hosts[p.host]) && HostOk(c, s.log, q.host, s.hosts[q.host]);
    hide HostOk, Sound, WellFormed, Exec, Legal, LinkBetween;
    forall v: u16
      ensures v in there <==> Carries(c, p, q, v) && (Asks(c, p.host, v) || Asks(c, q.host, v))
      ensures v in there <==> v in back
    {
      QuiescentExact(c, steps, p, q, v);
      QuiescentExact(c, steps, q, p, v);
      CarriesBack(c, p, q, v);
    }
    AscendingUnique(there, back);
  }

  lemma CarriesBack(c: Config, p: Port, q: Port, v: u16)
    requires TwoWay(c)
    ensures Carries(c, p, q, v) <==> Carries(c, q, p, v)
  {
    assert Wire(p, q, TagOf(v)) in c.wires ==> Wire(q, p, TagOf(v)) in c.wires;
    assert Wire(q, p, TagOf(v)) in c.wires ==> Wire(p, q, TagOf(v)) in c.wires;
  }

  /** Any two lossless runs that come to rest leave every node with the same map. */
  lemma QuiescentUnique(c: Config, steps: seq<Step>, others: seq<Step>, h: nat)
    requires WellFormed(c) && Legal(c, Init(c), steps, Lossless) && Legal(c, Init(c), others, Lossless)
    requires h < |c.hosts|
    requires Quiescent(Exec(c, Init(c), steps, Lossless)) && Quiescent(Exec(c, Init(c), others, Lossless))
    ensures Exec(c, Init(c), steps, Lossless).hosts[h].connection ==
            Exec(c, Init(c), others, Lossless).hosts[h].connection
  {
    var s, t := Exec(c, Init(c), steps, Lossless), Exec(c, Init(c), others, Lossless);
    InitFaithful(c);
    RunKeepsFaithful(c, Init(c), steps);
    RunKeepsFaithful(c, Init(c), others);
    assert HostOk(c, s.log, h, s.hosts[h]) && HostOk(c, t.log, h, t.hosts[h]);
    forall k, v ensures Lists(s.hosts[h].connection, k, v) <==> Lists(t.hosts[h].connection, k, v) {
      if Lists(s.hosts[h].connection, k, v) {
        ListedElsewhere(c, s, others, h, k, v);
      }
      if Lists(t.hosts[h].connection, k, v) {
        ListedElsewhere(c, t, steps, h, k, v);
      }
    }
    TidyUnique(s.hosts[h].connection, t.hosts[h].connection);
  }

  lemma ListedElsewhere(c: Config, s: State, steps: seq<Step>, h: nat, k: Link, v: u16)
    requires WellFormed(c) && Sound(c, s) && AllRouted(c, s)
    requires h < |c.hosts| && Lists(s.hosts[h].connection, k, v)
    requires Legal(c, Init(c), steps, Lossless) && Quiescent(Exec(c, Init(c), steps, Lossless))
    ensures Lists(Exec(c, Init(c), steps, Lossless).hosts[h].connection, k, v)
  {
    ListedExpected(c, s, h, k, v);
    hide Expected, Sound, AllRouted, Legal, Exec, LinkBetween;
    var p, q :| IsPort(c, p) && IsPort(c, q) && p.host == h && k == LinkBetween(c, p, q) && Expected(c, p, q, v);
    QuiescentExact(c, steps, p, q, v);
  }
}
