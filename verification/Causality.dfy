/** Over every run, on any network: nothing is listed that was not sent for a probed VLAN. */
module Causality {
  import opened Bytes
  import opened Frame
  import opened Topology
  import opened Daemon
  import opened Discovery

  // ---------------------------------------------------------------- why an event happened

  /** `ev` is the arrival at `p` of a request for `v` from the interface with address `dst`. */
  predicate RequestAt(ev: Event, p: Port, dst: Mac, v: u16) {
    ev.Received? && ev.at == p && ev.msg.request && ev.msg.peer.mac == dst && ev.msg.peer.vlan == v
  }

  ghost predicate Caused(c: Config, log: seq<Event>, i: nat)
    requires i < |log|
  {
    match log[i]
    case Received(p, m) =>
      IsPort(c, p) && exists j :: 0 <= j < i && log[j].Sent? && log[j].msg == m
    case Sent(q, dst, m) =>
      && IsPort(c, q)
      && m.peer == Self(c, q, m.peer.vlan)
      && (m.request <==> dst == BROADCAST)
      && (m.request ==> Asks(c, q.host, m.peer.vlan))
      && (!m.request ==> exists j :: 0 <= j < i && RequestAt(log[j], q, dst, m.peer.vlan))
  }

  ghost predicate AllCaused(c: Config, log: seq<Event>) {
    forall i :: 0 <= i < |log| ==> Caused(c, log, i)
  }

  // ---------------------------------------------------------------- why an item is where it is

  ghost predicate IsProbe(c: Config, h: nat, e: Entry)
    requires h < |c.hosts|
  {
    e.peer.mac == BROADCAST && Asks(c, h, e.peer.vlan)
  }

  /** Some interface of `h` with that index received `peer`. */
  ghost predicate HeardAt(c: Config, log: seq<Event>, h: nat, e: Entry, m: Msg) {
    exists p :: IsPort(c, p) && p.host == h && Nic(c, p).index == e.index && m.peer == e.peer && Received(p, m) in log
  }

  ghost predicate QueuedOk(c: Config, log: seq<Event>, h: nat, e: Entry)
    requires h < |c.hosts|
  {
    IsProbe(c, h, e) || HeardAt(c, log, h, e, Msg(e.peer, true))
  }

  ghost predicate PendingOk(c: Config, log: seq<Event>, h: nat, e: Entry) {
    exists r: bool :: HeardAt(c, log, h, e, Msg(e.peer, r))
  }

  ghost predicate ListedOk(c: Config, log: seq<Event>, h: nat, k: Link, v: u16) {
    exists p, m :: IsPort(c, p) && p.host == h && Received(p, m) in log && m.peer.vlan == v &&
      k == Link(Node(c.hosts[h].name, Nic(c, p)), PeerNode(m.peer))
  }

  ghost predicate HostOk(c: Config, log: seq<Event>, h: nat, s: HostState)
    requires h < |c.hosts|
  {
    && (forall e :: e in s.seeds ==> IsProbe(c, h, e))
    && (forall e :: e in s.sendQ ==> QueuedOk(c, log, h, e))
    && (forall e :: e in s.arriving ==> PendingOk(c, log, h, e))
    && (forall e :: e in s.topoQ ==> PendingOk(c, log, h, e))
    && Tidy(s.connection)
    && (forall k, v :: Lists(s.connection, k, v) ==> ListedOk(c, log, h, k, v))
  }

  ghost predicate WasSent(log: seq<Event>, m: Msg) {
    exists q, dst :: Sent(q, dst, m) in log
  }

  ghost predicate Sound(c: Config, s: State) {
    && Shape(c, s)
    && AllCaused(c, s.log)
    && (forall h :: 0 <= h < |s.hosts| ==> HostOk(c, s.log, h, s.hosts[h]))
    && (forall x :: x in s.flight ==> WasSent(s.log, x.msg))
  }

  // ---------------------------------------------------------------- histories only grow

  lemma CausedAppend(c: Config, log: seq<Event>, ev: Event)
    requires AllCaused(c, log)
    requires Caused(c, log + [ev], |log|)
    ensures AllCaused(c, log + [ev])
  {
    var more := log + [ev];
    forall i | 0 <= i < |more| ensures Caused(c, more, i) {
      if i < |log| {
        assert Caused(c, log, i) && more[i] == log[i];
        assert forall j :: 0 <= j < i ==> more[j] == log[j];
      }
    }
  }

  lemma HeardAppend(c: Config, log: seq<Event>, ev: Event, h: nat, e: Entry, m: Msg)
    requires HeardAt(c, log, h, e, m)
    ensures HeardAt(c, log + [ev], h, e, m)
  {
    var p :| IsPort(c, p) && p.host == h && Nic(c, p).index == e.index && m.peer == e.peer && Received(p, m) in log;
    assert Received(p, m) in log + [ev];
  }

  lemma ListedAppend(c: Config, log: seq<Event>, ev: Event, h: nat, k: Link, v: u16)
    requires h < |c.hosts| && ListedOk(c, log, h, k, v)
    ensures ListedOk(c, log + [ev], h, k, v)
  {
    var p, m :| IsPort(c, p) && p.host == h && Received(p, m) in log && m.peer.vlan == v &&
      k == Link(Node(c.hosts[h].name, Nic(c, p)), PeerNode(m.peer));
    assert Received(p, m) in log + [ev];
  }

  lemma HostAppend(c: Config, log: seq<Event>, ev: Event, h: nat, s: HostState)
    requires h < |c.hosts| && HostOk(c, log, h, s)
    ensures HostOk(c, log + [ev], h, s)
  {
    hide HeardAt, ListedOk, IsProbe, Lists;
    forall e | e in s.sendQ ensures QueuedOk(c, log + [ev], h, e) {
      if !IsProbe(c, h, e) {
        HeardAppend(c, log, ev, h, e, Msg(e.peer, true));
      }
    }
    forall e | e in s.arriving || e in s.topoQ ensures PendingOk(c, log + [ev], h, e) {
      var r: bool :| HeardAt(c, log, h, e, Msg(e.peer, r));
      HeardAppend(c, log, ev, h, e, Msg(e.peer, r));
    }
    forall k, v | Lists(s.connection, k, v) ensures ListedOk(c, log + [ev], h, k, v) {
      ListedAppend(c, log, ev, h, k, v);
    }
  }

  lemma FlightAppend(log: seq<Event>, ev: Event, m: Msg)
    requires WasSent(log, m)
    ensures WasSent(log + [ev], m)
  {
    var q, dst :| Sent(q, dst, m) in log;
    assert Sent(q, dst, m) in log + [ev];
  }

  // ---------------------------------------------------------------- every step keeps it

  lemma StartOk(c: Config, h: nat)
    requires h < |c.hosts|
    ensures HostOk(c, [], h, Start(c, h))
  {
    forall e | e in Start(c, h).seeds ensures IsProbe(c, h, e) {
      SeedsExact(c.hosts[h].nics, ProbeRanges(c.hosts[h].asked), e);
    }
  }

  lemma InitSound(c: Config)
    ensures Sound(c, Init(c))
  {
    forall h | 0 <= h < |c.hosts| ensures HostOk(c, [], h, Start(c, h)) {
      StartOk(c, h);
    }
  }

  /** The interface an index names is unique. */
  lemma ExitIsPort(c: Config, p: Port, e: Entry)
    requires WellFormed(c) && IsPort(c, p) && Nic(c, p).index == e.index
    ensures Exit(c, p.host, e) == Some(p)
    ensures LinkOf(c.hosts[p.host].name, c.hosts[p.host].nics, e) ==
            Some(Link(Node(c.hosts[p.host].name, Nic(c, p)), PeerNode(e.peer)))
  {
  }

  lemma SentCaused(c: Config, log: seq<Event>, h: nat, e: Entry, p: Port)
    requires WellFormed(c) && AllCaused(c, log) && h < |c.hosts|
    requires QueuedOk(c, log, h, e) && Exit(c, h, e) == Some(p)
    ensures Caused(c, log + [Sent(p, e.peer.mac, MsgFrom(c, p, e))], |log|)
  {
    var m := MsgFrom(c, p, e);
    var more := log + [Sent(p, e.peer.mac, m)];
    if !IsProbe(c, h, e) {
      var q :| IsPort(c, q) && q.host == h && Nic(c, q).index == e.index && Received(q, Msg(e.peer, true)) in log;
      ExitIsPort(c, q, e);
      var j :| 0 <= j < |log| && log[j] == Received(q, Msg(e.peer, true));
      assert Caused(c, log, j);
      var l :| 0 <= l < j && log[l].Sent? && log[l].msg == Msg(e.peer, true);
      assert Caused(c, log, l);
      assert e.peer.mac != BROADCAST;
      assert more[j] == log[j] && RequestAt(more[j], p, e.peer.mac, m.peer.vlan);
    }
  }

  lemma SendKeepsSound(c: Config, s: State, h: nat, to: seq<Port>)
    requires WellFormed(c) && Sound(c, s) && Enabled(c, s, Send(h, to))
    ensures Sound(c, ApplySend(c, s, h, to))
  {
    var r := ApplySend(c, s, h, to);
    var e := s.hosts[h].sendQ[0];
    assert HostOk(c, s.log, h, s.hosts[h]);
    assert HostOk(c, s.log, h, AfterSend(s.hosts[h]));
    var x := Exit(c, h, e);
    if x.Some? {
      var m := MsgFrom(c, x.value, e);
      var ev := Sent(x.value, e.peer.mac, m);
      assert QueuedOk(c, s.log, h, e);
      SentCaused(c, s.log, h, e, x.value);
      CausedAppend(c, s.log, ev);
      hide HostOk, Caused, WasSent, QueuedOk, AllCaused;
      forall g | 0 <= g < |s.hosts| ensures HostOk(c, s.log + [ev], g, r.hosts[g]) {
        HostAppend(c, s.log, ev, g, r.hosts[g]);
      }
      forall y | y in r.flight ensures WasSent(s.log + [ev], y.msg) {
        if y in s.flight {
          FlightAppend(s.log, ev, y.msg);
        } else {
          SentLast(s.log, x.value, e.peer.mac, m);
        }
      }
    }
  }

  lemma SentLast(log: seq<Event>, p: Port, dst: Mac, m: Msg)
    ensures WasSent(log + [Sent(p, dst, m)], m)
  {
    assert (log + [Sent(p, dst, m)])[|log|] == Sent(p, dst, m);
  }

  lemma ReceivedCaused(c: Config, log: seq<Event>, p: Port, m: Msg)
    requires IsPort(c, p) && WasSent(log, m)
    ensures Caused(c, log + [Received(p, m)], |log|)
  {
    var more := log + [Received(p, m)];
    var q, dst :| Sent(q, dst, m) in log;
    var j :| 0 <= j < |log| && log[j] == Sent(q, dst, m);
    assert more[j] == log[j];
  }

  lemma ReceiverOk(c: Config, log: seq<Event>, p: Port, m: Msg, s: HostState)
    requires IsPort(c, p) && HostOk(c, log, p.host, s) && Received(p, m) in log
    ensures HostOk(c, log, p.host, AfterReceive(s, Nic(c, p).index, m.peer, m.request))
  {
    var e := Entry(Nic(c, p).index, m.peer);
    assert HeardAt(c, log, p.host, e, Msg(e.peer, m.request));
    hide HeardAt, ListedOk, IsProbe;
    assert PendingOk(c, log, p.host, e);
  }

  lemma DeliverKeepsSound(c: Config, s: State, i: nat)
    requires WellFormed(c) && Sound(c, s) && i < |s.flight|
    ensures Sound(c, ApplyDeliver(c, s, i))
  {
    var r := ApplyDeliver(c, s, i);
    var Copy(m, p) := s.flight[i];
    var ev := Received(p, m);
    assert WasSent(s.log, s.flight[i].msg);
    ReceivedCaused(c, s.log, p, m);
    CausedAppend(c, s.log, ev);
    assert r.log == s.log + [ev] && r.log[|s.log|] == ev;
    hide HostOk, Caused, WasSent, AllCaused;
    forall g | 0 <= g < |s.hosts| ensures HostOk(c, r.log, g, r.hosts[g]) {
      HostAppend(c, s.log, ev, g, s.hosts[g]);
      if g == p.host {
        ReceiverOk(c, r.log, p, m, s.hosts[g]);
      }
    }
    forall y | y in r.flight ensures WasSent(r.log, y.msg) {
      FlightAppend(s.log, ev, y.msg);
    }
  }

  lemma TellerOk(c: Config, log: seq<Event>, h: nat, s: HostState, j: nat)
    requires h < |c.hosts| && j < |s.arriving| && HostOk(c, log, h, s)
    ensures HostOk(c, log, h, AfterTell(s, j))
  {
    hide PendingOk, QueuedOk, ListedOk, IsProbe, Tidy, Lists;
    assert s.arriving[j] in s.arriving;
  }

  lemma UpdaterOk(c: Config, log: seq<Event>, h: nat, s: HostState)
    requires WellFormed(c) && h < |c.hosts| && s.topoQ != [] && HostOk(c, log, h, s)
    ensures HostOk(c, log, h, AfterUpdate(c.hosts[h].name, c.hosts[h].nics, s))
  {
    var e := s.topoQ[0];
    var host, nics := c.hosts[h].name, c.hosts[h].nics;
    RecordAddsMember(host, nics, s.connection, e);
    assert PendingOk(c, log, h, e);
    var r: bool :| HeardAt(c, log, h, e, Msg(e.peer, r));
    var p :| IsPort(c, p) && p.host == h && Nic(c, p).index == e.index && Received(p, Msg(e.peer, r)) in log;
    ExitIsPort(c, p, e);
    assert ListedOk(c, log, h, LinkOf(host, nics, e).value, e.peer.vlan);
    hide Record, LinkOf, ListedOk, PendingOk, QueuedOk, IsProbe, Tidy, Lists;
  }

  lemma StepKeepsSound(c: Config, s: State, a: Step)
    requires WellFormed(c) && Sound(c, s) && Enabled(c, s, a)
    ensures Sound(c, Apply(c, s, a))
  {
    match a
    case Seed(h) =>
      assert HostOk(c, s.log, h, AfterSeed(s.hosts[h]));
    case Send(h, to) =>
      SendKeepsSound(c, s, h, to);
    case Deliver(i) =>
      DeliverKeepsSound(c, s, i);
    case Tell(h, j) =>
      assert HostOk(c, s.log, h, s.hosts[h]);
      TellerOk(c, s.log, h, s.hosts[h], j);
    case Update(h) =>
      UpdaterOk(c, s.log, h, s.hosts[h]);
    case Lose(i) =>
    case Duplicate(i) =>
  }

  lemma {:induction false} RunKeepsSound(c: Config, s: State, steps: seq<Step>, n: Network)
    requires WellFormed(c) && Sound(c, s) && Legal(c, s, steps, n)
    ensures Sound(c, Exec(c, s, steps, n))
    decreases |steps|
  {
    assert Shape(c, s);
    hide Sound, Enabled, Apply, Allowed, WellFormed;
    if steps != [] {
      StepKeepsSound(c, s, steps[0]);
      RunKeepsSound(c, Apply(c, s, steps[0]), steps[1..], n);
    }
  }

  // ---------------------------------------------------------------- the result

  /** The frame sent at position `j` announces `v` because its sender probed `v`, or because it answers a
      request that arrived earlier and that its addressee had sent, as a broadcast, while probing `v`. */
  ghost predicate Originates(c: Config, log: seq<Event>, j: nat, v: u16)
    requires j < |log| && log[j].Sent? && IsPort(c, log[j].from)
  {
    || (log[j].dst == BROADCAST && Asks(c, log[j].from.host, v))
    || (exists l, k :: 0 <= l < k < j && Asked(c, log, l, k, log[j].from, log[j].dst, v))
  }

  /** At `l` the interface with address `mac` broadcast a probe for `v`, which reached `q` at `k`. */
  ghost predicate Asked(c: Config, log: seq<Event>, l: nat, k: nat, q: Port, mac: Mac, v: u16)
    requires l < k < |log|
  {
    && RequestAt(log[k], q, mac, v)
    && log[l].Sent? && log[l].dst == BROADCAST && log[l].msg == log[k].msg
    && IsPort(c, log[l].from) && Nic(c, log[l].from).mac == mac
    && log[l].msg.peer == Self(c, log[l].from, v)
    && Asks(c, log[l].from.host, v)
  }

  /** At `j` a real interface sent, under its own names and address, the frame that `p` received at `i`. */
  ghost predicate Explains(c: Config, log: seq<Event>, j: nat, i: nat, p: Port, k: Link, v: u16)
    requires j < i < |log| && IsPort(c, p)
  {
    && log[i].Received? && log[i].at == p
    && log[j].Sent? && log[j].msg == log[i].msg && IsPort(c, log[j].from)
    && log[j].msg.peer == Self(c, log[j].from, v)
    && k == LinkBetween(c, p, log[j].from)
    && Originates(c, log, j, v)
  }

  lemma SentOriginates(c: Config, log: seq<Event>, j: nat)
    requires AllCaused(c, log) && j < |log| && log[j].Sent?
    ensures IsPort(c, log[j].from) && Originates(c, log, j, log[j].msg.peer.vlan)
  {
    var Sent(q, dst, m) := log[j];
    assert Caused(c, log, j);
    if !m.request {
      var k :| 0 <= k < j && RequestAt(log[k], q, dst, m.peer.vlan);
      assert Caused(c, log, k);
      var l :| 0 <= l < k && log[l].Sent? && log[l].msg == log[k].msg;
      assert Caused(c, log, l);
      assert Asked(c, log, l, k, q, dst, m.peer.vlan);
    }
  }

  lemma ListedExplained(c: Config, log: seq<Event>, h: nat, k: Link, v: u16)
    requires AllCaused(c, log) && h < |c.hosts| && ListedOk(c, log, h, k, v)
    ensures exists p, j, i :: IsPort(c, p) && p.host == h && 0 <= j < i < |log| && Explains(c, log, j, i, p, k, v)
  {
    var p, m :| IsPort(c, p) && p.host == h && Received(p, m) in log && m.peer.vlan == v &&
      k == Link(Node(c.hosts[h].name, Nic(c, p)), PeerNode(m.peer));
    var i :| 0 <= i < |log| && log[i] == Received(p, m);
    assert Caused(c, log, i);
    var j :| 0 <= j < i && log[j].Sent? && log[j].msg == m;
    assert Caused(c, log, j);
    SentOriginates(c, log, j);
    hide Originates, Caused;
    assert Explains(c, log, j, i, p, k, v);
  }

  /** After any run on any network, even one that loses, repeats, reorders and misdelivers at will, every VLAN
      a node lists for a link traces back through at most one reply to a probe some node was configured to send. */
  lemma CausalSoundness(c: Config, steps: seq<Step>, n: Network, h: nat, k: Link, v: u16)
    requires WellFormed(c) && Legal(c, Init(c), steps, n)
    requires h < |c.hosts| && Lists(Exec(c, Init(c), steps, n).hosts[h].connection, k, v)
    ensures var log := Exec(c, Init(c), steps, n).log;
      exists p, j, i :: IsPort(c, p) && p.host == h && 0 <= j < i < |log| && Explains(c, log, j, i, p, k, v)
  {
    InitSound(c);
    RunKeepsSound(c, Init(c), steps, n);
    var s := Exec(c, Init(c), steps, n);
    assert HostOk(c, s.log, h, s.hosts[h]);
    ListedExplained(c, s.log, h, k, v);
  }
}
