/** No reply storm: on a network that does not repeat frames every run ends, and it ends at rest. */
module Termination {
  import opened Bytes
  import opened Frame
  import opened Topology
  import opened Daemon
  import opened Discovery
  import opened Causality
  import opened Completeness

  // ---------------------------------------------------------------- counting ports

  ghost function Ports(c: Config): (r: set<Port>)
    ensures forall p :: p in r <==> IsPort(c, p)
  {
    set h, k | 0 <= h < |c.hosts| && 0 <= k < |c.hosts[h].nics| :: Port(h, k)
  }

  lemma {:induction false} DistinctBound<T>(s: seq<T>, all: set<T>)
    requires Distinct(s) && forall i :: 0 <= i < |s| ==> s[i] in all
    ensures |s| <= |all|
  {
    if s != [] {
      var init, last := s[..|s| - 1], s[|s| - 1];
      assert forall i :: 0 <= i < |init| ==> init[i] == s[i] && init[i] in all - {last};
      DistinctBound(init, all - {last});
    }
  }

  // ---------------------------------------------------------------- the measure

  /** A queued topology message costs 1, an arriving one 2; a copy of a reply, one more than what it
      becomes; and so on up the chain. */
  ghost function CopyCost(n: nat, m: Msg): nat {
    if m.request then 3 * n + 4 else 3
  }

  ghost function QueuedCost(n: nat, e: Entry): nat {
    if e.peer.mac == BROADCAST then 1 + n * (3 * n + 4) else 1 + n * 3
  }

  ghost function Sum<T>(s: seq<T>, f: T -> nat): nat {
    if s == [] then 0 else Sum(s[..|s| - 1], f) + f(s[|s| - 1])
  }

  lemma {:induction false} SumConcat<T>(a: seq<T>, b: seq<T>, f: T -> nat)
    ensures Sum(a + b, f) == Sum(a, f) + Sum(b, f)
  {
    if b == [] {
      assert a + b == a;
    } else {
      SumConcat(a, b[..|b| - 1], f);
      assert (a + b)[..|a + b| - 1] == a + b[..|b| - 1];
    }
  }

  lemma SumOne<T>(x: T, f: T -> nat)
    ensures Sum([x], f) == f(x)
  {
    assert [x][..0] == [];
  }

  lemma SumHead<T>(s: seq<T>, f: T -> nat)
    requires s != []
    ensures Sum(s, f) == f(s[0]) + Sum(s[1..], f)
  {
    assert s == [s[0]] + s[1..];
    SumConcat([s[0]], s[1..], f);
    SumOne(s[0], f);
  }

  lemma SumSnoc<T>(s: seq<T>, x: T, f: T -> nat)
    ensures Sum(s + [x], f) == Sum(s, f) + f(x)
  {
    SumConcat(s, [x], f);
    SumOne(x, f);
  }

  lemma SumAround<T>(a: seq<T>, x: T, b: seq<T>, f: T -> nat)
    ensures Sum(a + ([x] + b), f) == Sum(a + b, f) + f(x)
  {
    hide Sum;
    SumConcat(a, [x] + b, f);
    SumConcat([x], b, f);
    SumOne(x, f);
    SumConcat(a, b, f);
  }

  lemma WithoutParts<T>(s: seq<T>, i: nat)
    requires i < |s|
    ensures s == s[..i] + ([s[i]] + s[i + 1..]) && Without(s, i) == s[..i] + s[i + 1..]
  {
  }

  lemma SumWithout<T>(s: seq<T>, i: nat, f: T -> nat)
    requires i < |s|
    ensures Sum(s, f) == Sum(Without(s, i), f) + f(s[i])
  {
    hide *;
    WithoutParts(s, i);
    SumAround(s[..i], s[i], s[i + 1..], f);
  }

  lemma {:induction false} SumCopies(m: Msg, to: seq<Port>, f: Copy -> nat, cost: nat)
    requires forall p :: f(Copy(m, p)) == cost
    ensures Sum(Copies(m, to), f) == |to| * cost
  {
    if to != [] {
      var init, last := to[..|to| - 1], to[|to| - 1];
      SumCopies(m, init, f, cost);
      assert Copies(m, to) == Copies(m, init) + [Copy(m, last)];
      SumSnoc(Copies(m, init), Copy(m, last), f);
    }
  }

  ghost function SeedCosts(n: nat): Entry -> nat {
    (e: Entry) => 1 + QueuedCost(n, e)
  }

  ghost function QueuedCosts(n: nat): Entry -> nat {
    (e: Entry) => QueuedCost(n, e)
  }

  ghost function CopyCosts(n: nat): Copy -> nat {
    (x: Copy) => CopyCost(n, x.msg)
  }

  ghost function HostCosts(n: nat): HostState -> nat {
    (s: HostState) => Sum(s.seeds, SeedCosts(n)) + Sum(s.sendQ, QueuedCosts(n)) + 2 * |s.arriving| + |s.topoQ|
  }

  /** What the messages still waiting can lead to, at most. */
  ghost function Measure(c: Config, s: State): nat {
    Sum(s.hosts, HostCosts(|Ports(c)|)) + Sum(s.flight, CopyCosts(|Ports(c)|))
  }

  lemma SumUpdate<T>(s: seq<T>, i: nat, x: T, f: T -> nat)
    requires i < |s|
    ensures Sum(s[i := x], f) + f(s[i]) == Sum(s, f) + f(x)
  {
    hide Sum;
    SumWithout(s, i, f);
    SumWithout(s[i := x], i, f);
    assert Without(s, i) == Without(s[i := x], i);
  }

  // ---------------------------------------------------------------- every step lowers it

  lemma SeedCheaper(n: nat, s: HostState)
    requires s.seeds != []
    ensures HostCosts(n)(AfterSeed(s)) < HostCosts(n)(s)
  {
    hide Sum, QueuedCost;
    SumHead(s.seeds, SeedCosts(n));
    SumSnoc(s.sendQ, s.seeds[0], QueuedCosts(n));
  }

  lemma SendCheaper(n: nat, s: HostState)
    requires s.sendQ != []
    ensures HostCosts(n)(AfterSend(s)) + QueuedCost(n, s.sendQ[0]) == HostCosts(n)(s)
  {
    hide Sum, QueuedCost;
    SumHead(s.sendQ, QueuedCosts(n));
  }

  lemma ReceiveCost(n: nat, s: HostState, index: u32, m: Msg)
    requires m.peer.mac != BROADCAST
    ensures HostCosts(n)(AfterReceive(s, index, m.peer, m.request)) < HostCosts(n)(s) + CopyCost(n, m)
  {
    hide Sum;
    SumSnoc(s.sendQ, Entry(index, m.peer), QueuedCosts(n));
  }

  lemma CopiesAffordable(n: nat, e: Entry, p: Port, c: Config, to: seq<Port>)
    requires IsPort(c, p) && |to| <= n
    ensures Sum(Copies(MsgFrom(c, p, e), to), CopyCosts(n)) < QueuedCost(n, e)
  {
    var m := MsgFrom(c, p, e);
    assert QueuedCost(n, e) == 1 + n * CopyCost(n, m);
    SumCopies(m, to, CopyCosts(n), CopyCost(n, m));
    hide Sum, CopyCost, QueuedCost;
    TimesMonotone(|to|, n, CopyCost(n, m));
  }

  lemma TimesMonotone(a: nat, b: nat, k: nat)
    requires a <= b
    ensures a * k <= b * k
  {
    assert (b - a) * k >= 0;
  }

  lemma SendLowers(c: Config, s: State, h: nat, to: seq<Port>)
    requires Shape(c, s) && Enabled(c, s, Send(h, to)) && Distinct(to)
    ensures Measure(c, ApplySend(c, s, h, to)) < Measure(c, s)
  {
    var n := |Ports(c)|;
    var e := s.hosts[h].sendQ[0];
    assert QueuedCost(n, e) > 0;
    DistinctBound(to, Ports(c));
    hide Sum, Ports, QueuedCost, CopyCosts, HostCosts, Copies, Exit, Distinct;
    SumUpdate(s.hosts, h, AfterSend(s.hosts[h]), HostCosts(n));
    SendCheaper(n, s.hosts[h]);
    var x := Exit(c, h, e);
    if x.Some? {
      CopiesAffordable(n, e, x.value, c, to);
      SumConcat(s.flight, Copies(MsgFrom(c, x.value, e), to), CopyCosts(n));
    }
  }

  lemma SourceUnicast(c: Config, s: State, x: Copy)
    requires WellFormed(c) && Sound(c, s) && x in s.flight
    ensures x.msg.peer.mac != BROADCAST
  {
    var q, dst :| Sent(q, dst, x.msg) in s.log;
    var j :| 0 <= j < |s.log| && s.log[j] == Sent(q, dst, x.msg);
    assert Caused(c, s.log, j);
  }

  lemma DeliverLowers(c: Config, s: State, i: nat)
    requires WellFormed(c) && Sound(c, s) && i < |s.flight|
    ensures Measure(c, ApplyDeliver(c, s, i)) < Measure(c, s)
  {
    var n := |Ports(c)|;
    var Copy(m, p) := s.flight[i];
    var t := s.hosts[p.host];
    SourceUnicast(c, s, s.flight[i]);
    hide Sum, Ports, HostCosts, Sound, WellFormed;
    ReceiveCost(n, t, Nic(c, p).index, m);
    SumUpdate(s.hosts, p.host, AfterReceive(t, Nic(c, p).index, m.peer, m.request), HostCosts(n));
    SumWithout(s.flight, i, CopyCosts(n));
  }

  /** Replacing one node by a cheaper one lowers the measure. */
  lemma HostLowers(c: Config, s: State, h: nat, t: HostState)
    requires h < |s.hosts| && HostCosts(|Ports(c)|)(t) < HostCosts(|Ports(c)|)(s.hosts[h])
    ensures Measure(c, s.(hosts := s.hosts[h := t])) < Measure(c, s)
  {
    hide Sum, Ports, HostCosts;
    SumUpdate(s.hosts, h, t, HostCosts(|Ports(c)|));
  }

  lemma TellCheaper(n: nat, s: HostState, j: nat)
    requires j < |s.arriving|
    ensures HostCosts(n)(AfterTell(s, j)) < HostCosts(n)(s)
  {
    hide Sum;
  }

  lemma UpdateCheaper(n: nat, host: Name, nics: seq<Interface>, s: HostState)
    requires s.topoQ != []
    ensures HostCosts(n)(AfterUpdate(host, nics, s)) < HostCosts(n)(s)
  {
    hide Sum, Record;
  }

  lemma LoseLowers(c: Config, s: State, i: nat)
    requires i < |s.flight|
    ensures Measure(c, s.(flight := Without(s.flight, i))) < Measure(c, s)
  {
    hide Sum, Ports;
    SumWithout(s.flight, i, CopyCosts(|Ports(c)|));
  }

  /** Queueing, sending, delivering, losing, passing on and recording each make strict progress. */
  lemma StepLowers(c: Config, s: State, a: Step)
    requires WellFormed(c) && Sound(c, s) && Enabled(c, s, a) && Allowed(c, s, a, Lossy)
    ensures Measure(c, Apply(c, s, a)) < Measure(c, s)
  {
    assert Shape(c, s);
    hide Measure, Ports, HostCosts, Sound, WellFormed, AfterSeed, AfterTell, AfterUpdate, ApplySend, ApplyDeliver;
    var n := |Ports(c)|;
    match a
    case Seed(h) =>
      SeedCheaper(n, s.hosts[h]);
      HostLowers(c, s, h, AfterSeed(s.hosts[h]));
    case Send(h, to) =>
      SendLowers(c, s, h, to);
    case Deliver(i) =>
      DeliverLowers(c, s, i);
    case Tell(h, j) =>
      TellCheaper(n, s.hosts[h], j);
      HostLowers(c, s, h, AfterTell(s.hosts[h], j));
    case Update(h) =>
      UpdateCheaper(n, c.hosts[h].name, c.hosts[h].nics, s.hosts[h]);
      HostLowers(c, s, h, AfterUpdate(c.hosts[h].name, c.hosts[h].nics, s.hosts[h]));
    case Lose(i) =>
      LoseLowers(c, s, i);
  }

  /** A network that may lose, reorder and misdeliver, but not repeat: no run is longer than the measure. */
  lemma {:induction false} RunBounded(c: Config, s: State, steps: seq<Step>)
    requires WellFormed(c) && Sound(c, s) && Legal(c, s, steps, Lossy)
    ensures |steps| + Measure(c, Exec(c, s, steps, Lossy)) <= Measure(c, s)
    decreases |steps|
  {
    assert Shape(c, s);
    hide Sound, Enabled, Apply, Allowed, WellFormed, Measure;
    if steps != [] {
      StepKeepsSound(c, s, steps[0]);
      StepLowers(c, s, steps[0]);
      RunBounded(c, Apply(c, s, steps[0]), steps[1..]);
    }
  }

  // ---------------------------------------------------------------- how long that is

  lemma {:induction false} SumScaled<T>(s: seq<T>, f: T -> nat, g: T -> nat, k: nat)
    requires forall x :: x in s ==> f(x) == g(x) * k
    ensures Sum(s, f) == Sum(s, g) * k
  {
    if s != [] {
      var init, last := s[..|s| - 1], s[|s| - 1];
      SumScaled(init, f, g, k);
      calc {
        Sum(s, f);
        Sum(init, g) * k + g(last) * k;
        (Sum(init, g) + g(last)) * k;
      }
    }
  }

  lemma {:induction false} SumOnes<T>(s: seq<T>, g: T -> nat)
    requires forall x :: x in s ==> g(x) == 1
    ensures Sum(s, g) == |s|
  {
    if s != [] {
      SumOnes(s[..|s| - 1], g);
    }
  }

  /** How many probes all nodes together are seeded with. */
  ghost function TotalProbes(c: Config): nat {
    Sum(Init(c).hosts, (s: HostState) => |s.seeds|)
  }

  /** The most steps one probe can lead to with `n` ports. */
  ghost function StepsPerProbe(n: nat): nat {
    2 + n * (3 * n + 4)
  }

  lemma StartCost(c: Config, h: nat, n: nat)
    requires h < |c.hosts|
    ensures HostCosts(n)(Start(c, h)) == |Start(c, h).seeds| * StepsPerProbe(n)
  {
    var seeds := Start(c, h).seeds;
    forall e | e in seeds ensures SeedCosts(n)(e) == StepsPerProbe(n) {
      SeedsExact(c.hosts[h].nics, ProbeRanges(c.hosts[h].asked), e);
    }
    hide Seeds;
    var one := (e: Entry) => 1;
    SumScaled(seeds, SeedCosts(n), one, StepsPerProbe(n));
    SumOnes(seeds, one);
  }

  lemma InitMeasure(c: Config)
    ensures Measure(c, Init(c)) == TotalProbes(c) * StepsPerProbe(|Ports(c)|)
  {
    var n, s := |Ports(c)|, Init(c);
    var backlog := (s: HostState) => |s.seeds|;
    forall x | x in s.hosts ensures HostCosts(n)(x) == backlog(x) * StepsPerProbe(n) {
      var h :| 0 <= h < |c.hosts| && x == Start(c, h);
      StartCost(c, h, n);
    }
    SumScaled(s.hosts, HostCosts(n), backlog, StepsPerProbe(n));
  }

  /** However frames are lost, reordered or misdelivered, every run of `N` ports ends within
      2 + N(3N + 4) steps per probe: a reply is never answered. */
  lemma NoReplyStorm(c: Config, steps: seq<Step>)
    requires WellFormed(c) && Legal(c, Init(c), steps, Lossy)
    ensures |steps| <= TotalProbes(c) * StepsPerProbe(|Ports(c)|)
  {
    hide *;
    InitSound(c);
    RunBounded(c, Init(c), steps);
    InitMeasure(c);
  }

  // ---------------------------------------------------------------- and ends at rest

  lemma {:induction false} Enumerate<T>(all: set<T>) returns (s: seq<T>)
    ensures Distinct(s) && forall x :: x in s <==> x in all
  {
    s := [];
    if all != {} {
      var x :| x in all;
      s := Enumerate(all - {x});
      assert forall i :: 0 <= i < |s| ==> s[i] in s;
      s := s + [x];
    }
  }

  /** The network can always deliver exactly where a frame reaches. */
  lemma SendPossible(c: Config, s: State, h: nat) returns (a: Step)
    requires Shape(c, s) && h < |s.hosts| && s.hosts[h].sendQ != []
    ensures Enabled(c, s, a) && Allowed(c, s, a, Lossless)
  {
    var e := s.hosts[h].sendQ[0];
    var x := Exit(c, h, e);
    if x.None? {
      a := Send(h, []);
    } else {
      var reached := set t | t in Ports(c) && Reaches(c, x.value, e.peer.mac, e.peer.vlan, t);
      var to := Enumerate(reached);
      assert forall i :: 0 <= i < |to| ==> to[i] in to;
      a := Send(h, to);
    }
  }

  /** A run that has not come to rest can go on, without loss. */
  lemma NotStuck(c: Config, s: State) returns (a: Step)
    requires Shape(c, s) && !Quiescent(s)
    ensures Enabled(c, s, a) && Allowed(c, s, a, Lossless)
  {
    if s.flight != [] {
      a := Deliver(0);
    } else {
      var h :| 0 <= h < |s.hosts| && !Idle(s.hosts[h]);
      if s.hosts[h].seeds != [] {
        a := Seed(h);
      } else if s.hosts[h].arriving != [] {
        a := Tell(h, 0);
      } else if s.hosts[h].topoQ != [] {
        a := Update(h);
      } else {
        a := SendPossible(c, s, h);
      }
    }
  }

  /** From every state a run can reach, the network can be brought to rest without further loss. */
  lemma {:induction false} Settles(c: Config, s: State) returns (steps: seq<Step>)
    requires WellFormed(c) && Sound(c, s)
    ensures Legal(c, s, steps, Lossless) && Quiescent(Exec(c, s, steps, Lossless))
    decreases Measure(c, s)
  {
    assert Shape(c, s);
    steps := [];
    if !Quiescent(s) {
      var a := NotStuck(c, s);
      assert Allowed(c, s, a, Lossy);
      StepKeepsSound(c, s, a);
      StepLowers(c, s, a);
      hide Sound, WellFormed, Measure, Enabled, Allowed, Apply, Quiescent;
      var rest := Settles(c, Apply(c, s, a));
      steps := [a] + rest;
      assert steps[1..] == rest;
    }
  }
}
