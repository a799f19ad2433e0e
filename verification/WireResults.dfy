/** What the runs of the protocol guarantee, carried down to frames as bytes. */
module WireResults {
  import opened Bytes
  import opened Frame
  import opened VlanList
  import opened Topology
  import opened Daemon
  import opened Discovery
  import opened Causality
  import opened Completeness
  import opened Termination
  import opened WireProtocol

  // ---------------------------------------------------------------- on any network

  /** Byte for byte, on any network and whoever panics: every listed VLAN traces back to a configured probe,
      and no frame in that history was received from a sender that would have panicked on it. */
  lemma WireCausalSoundness(c: Config, xs: seq<WireStep>, n: Network, h: nat, k: Link, v: u16)
    requires WellFormed(c) && WireLegal(c, WireInit(c), xs, n) && (n == Lossless ==> NamesFit(c))
    requires h < |c.hosts| && Lists(WireExec(c, WireInit(c), xs, n).hosts[h].connection, k, v)
    ensures Legal(c, Init(c), Project(c, WireInit(c), xs, n), n)
    ensures var log := Exec(c, Init(c), Project(c, WireInit(c), xs, n), n).log;
      && HeardFits(log)
      && exists p, j, i :: IsPort(c, p) && p.host == h && 0 <= j < i < |log| && Explains(c, log, j, i, p, k, v)
  {
    var steps := Project(c, WireInit(c), xs, n);
    WireInitRefines(c, xs, n);
    var s := Exec(c, Init(c), steps, n);
    assert WireExec(c, WireInit(c), xs, n).hosts == s.hosts && HeardFits(s.log);
    hide *;
    CausalSoundness(c, steps, n, h, k, v);
  }

  /** Byte for byte: bridges that lose and repeat frames, but forward by address and tag, cause no wrong
      entry, whoever panics. */
  lemma WireNeverWrong(c: Config, xs: seq<WireStep>, h: nat, k: Link, v: u16)
    requires WellFormed(c) && WireLegal(c, WireInit(c), xs, Routing)
    requires h < |c.hosts| && Lists(WireExec(c, WireInit(c), xs, Routing).hosts[h].connection, k, v)
    ensures exists p, q ::
      IsPort(c, p) && IsPort(c, q) && p.host == h && k == LinkBetween(c, p, q) && Expected(c, p, q, v)
  {
    var steps := Project(c, WireInit(c), xs, Routing);
    WireInitRefines(c, xs, Routing);
    assert WireExec(c, WireInit(c), xs, Routing).hosts == Exec(c, Init(c), steps, Routing).hosts;
    hide *;
    NeverWrong(c, steps, h, k, v);
  }

  // ---------------------------------------------------------------- no reply storm

  ghost function TagCosts(): Packet -> nat {
    (x: Packet) => if HasTag(x.bytes) then 1 else 0
  }

  ghost function Tags(w: WireState): nat {
    Sum(w.flight, TagCosts())
  }

  lemma {:induction false} PacketTags(bytes: seq<u8>, to: seq<Port>)
    ensures Sum(Packets(bytes, to), TagCosts()) <= |to|
  {
    hide HasTag;
    if to != [] {
      var init, last := to[..|to| - 1], to[|to| - 1];
      PacketTags(bytes, init);
      assert Packets(bytes, to) == Packets(bytes, init) + [Packet(bytes, last)];
      SumSnoc(Packets(bytes, init), Packet(bytes, last), TagCosts());
    }
  }

  /** A step adds at most one tagged frame per port. */
  lemma PlainAddsTags(c: Config, w: WireState, a: Step)
    requires WireShape(c, w) && WireEnabled(c, w, Plain(a)) && WireAllowed(c, w, Plain(a), Lossy)
    ensures Tags(WireApply(c, w, Plain(a))) <= Tags(w) + |Ports(c)|
  {
    hide Sum, HasTag, Emit, ParseFrame;
    if a.Send? {
      var e := Emit(c.hosts[a.h].name, c.hosts[a.h].nics, w.hosts[a.h].sendQ[0]);
      if e.Emitted? {
        DistinctBound(a.to, Ports(c));
        PacketTags(e.frame, a.to);
        SumConcat(w.flight, Packets(e.frame, a.to), TagCosts());
      }
    } else if a.Deliver? || a.Lose? {
      SumWithout(w.flight, a.i, TagCosts());
    }
  }

  lemma StripRemovesTag(c: Config, w: WireState, s: State, i: nat)
    requires WireShape(c, w) && Refines(w, s) && WireEnabled(c, w, Strip(i))
    ensures Tags(WireApply(c, w, Strip(i))) + 1 == Tags(w)
  {
    StripRefines(c, w, s, i);
    hide Sum, HasTag, StripTag, Refines;
    SumUpdate(w.flight, i, w.flight[i].(bytes := StripTag(w.flight[i].bytes)), TagCosts());
  }

  /** Each protocol step pays for the tags it can put on the wire. */
  ghost function WireMeasure(c: Config, w: WireState, s: State): nat {
    Measure(c, s) * (|Ports(c)| + 1) + Tags(w)
  }

  lemma PlainLowers(c: Config, w: WireState, s: State, a: Step)
    requires WellFormed(c) && WireShape(c, w) && Sound(c, s) && Refines(w, s)
    requires WireEnabled(c, w, Plain(a)) && WireAllowed(c, w, Plain(a), Lossy)
    ensures Shape(c, s) && Enabled(c, s, Effective(c, w, a))
    ensures WireMeasure(c, WireApply(c, w, Plain(a)), Apply(c, s, Effective(c, w, a))) < WireMeasure(c, w, s)
  {
    assert Shape(c, s) && NoPanics(c, s, Lossy);
    var b := Effective(c, w, a);
    hide *;
    PlainRefines(c, w, s, a, Lossy);
    StepLowers(c, s, b);
    PlainAddsTags(c, w, a);
    var w', s' := WireApply(c, w, Plain(a)), Apply(c, s, b);
    Pays(Measure(c, s'), Measure(c, s), Tags(w'), Tags(w), |Ports(c)|);
    MeasureParts(c, w, s);
    MeasureParts(c, w', s');
  }

  lemma Pays(m': nat, m: nat, t': nat, t: nat, n: nat)
    requires m' < m && t' <= t + n
    ensures m' * (n + 1) + t' < m * (n + 1) + t
  {
    TimesMonotone(m' + 1, m, n + 1);
    assert (m' + 1) * (n + 1) == m' * (n + 1) + n + 1;
  }

  lemma MeasureParts(c: Config, w: WireState, s: State)
    ensures WireMeasure(c, w, s) == Measure(c, s) * (|Ports(c)| + 1) + Tags(w)
  {
  }

  lemma {:induction false} WireRunBounded(c: Config, w: WireState, s: State, xs: seq<WireStep>)
    requires WellFormed(c) && WireShape(c, w) && Sound(c, s) && Refines(w, s) && WireLegal(c, w, xs, Lossy)
    ensures |xs| <= WireMeasure(c, w, s)
    decreases |xs|
  {
    assert Shape(c, s) && NoPanics(c, s, Lossy);
    hide WellFormed, WireShape, Sound, Refines, WireEnabled, WireAllowed, WireApply, Apply, Enabled, Effective,
      Measure, Tags, Allowed, NoPanics;
    if xs != [] {
      var w' := WireApply(c, w, xs[0]);
      if xs[0].Strip? {
        StripRefines(c, w, s, xs[0].i);
        StripRemovesTag(c, w, s, xs[0].i);
        WireRunBounded(c, w', s, xs[1..]);
      } else {
        var a := Effective(c, w, xs[0].a);
        PlainRefines(c, w, s, xs[0].a, Lossy);
        PlainLowers(c, w, s, xs[0].a);
        StepKeepsSound(c, s, a);
        WireRunBounded(c, w', Apply(c, s, a), xs[1..]);
      }
    }
  }

  lemma InitMatches(c: Config)
    ensures Refines(WireInit(c), Init(c)) && Tags(WireInit(c)) == 0
  {
  }

  /** Byte for byte: however frames are lost, reordered or misdelivered and whoever panics, every run over
      `N` ports, tag stripping included, ends within (2 + N(3N + 4))(N + 1) steps per probe. */
  lemma WireNoReplyStorm(c: Config, xs: seq<WireStep>)
    requires WellFormed(c) && WireLegal(c, WireInit(c), xs, Lossy)
    ensures |xs| <= TotalProbes(c) * StepsPerProbe(|Ports(c)|) * (|Ports(c)| + 1)
  {
    hide *;
    InitSound(c);
    InitMatches(c);
    WireRunBounded(c, WireInit(c), Init(c), xs);
    InitMeasure(c);
    MeasureParts(c, WireInit(c), Init(c));
  }

  // ---------------------------------------------------------------- at rest

  ghost predicate WireQuiescent(w: WireState) {
    w.flight == [] && forall h :: 0 <= h < |w.hosts| ==> Idle(w.hosts[h])
  }

  /** What the protocol can do without loss can be done over bytes. */
  lemma PlainPossible(c: Config, w: WireState, s: State, a: Step)
    requires WireShape(c, w) && Shape(c, s) && Refines(w, s) && NamesFit(c) && OnlyAsked(c, s)
    requires Enabled(c, s, a) && Allowed(c, s, a, Lossless)
    ensures WireEnabled(c, w, Plain(a)) && WireAllowed(c, w, Plain(a), Lossless) && Effective(c, w, a) == a
  {
    NeverPanics(c, w, s, a);
    hide NamesFit, OnlyAsked, Says, HeardFits, ExactReceivers, ForwardsTo, Panics;
    if a.Send? {
      SentRefines(c, w, s, a.h, a.to);
    }
  }

  lemma {:induction false} WireSettlesFrom(c: Config, w: WireState, s: State) returns (ys: seq<WireStep>)
    requires WellFormed(c) && WireShape(c, w) && Sound(c, s) && Refines(w, s) && NamesFit(c) && OnlyAsked(c, s)
    ensures WireLegal(c, w, ys, Lossless) && WireQuiescent(WireExec(c, w, ys, Lossless))
    decreases Measure(c, s)
  {
    assert Shape(c, s) && NoPanics(c, s, Lossless);
    assert WireQuiescent(w) <==> Quiescent(s);
    ys := [];
    if !WireQuiescent(w) {
      hide *;
      var a := NotStuck(c, s);
      LosslessLoses(c, s, a);
      PlainPossible(c, w, s, a);
      PlainRefines(c, w, s, a, Lossless);
      StepKeepsSound(c, s, a);
      StepKeepsAsked(c, s, a);
      StepLowers(c, s, a);
      var w' := WireApply(c, w, Plain(a));
      var rest := WireSettlesFrom(c, w', Apply(c, s, a));
      ys := [Plain(a)] + rest;
      WireCons(c, w, Plain(a), rest);
    }
  }

  lemma LosslessLoses(c: Config, s: State, a: Step)
    requires Shape(c, s) && Enabled(c, s, a) && Allowed(c, s, a, Lossless)
    ensures Allowed(c, s, a, Lossy)
  {
  }

  lemma WireCons(c: Config, w: WireState, x: WireStep, rest: seq<WireStep>)
    requires WireShape(c, w) && WireEnabled(c, w, x) && WireAllowed(c, w, x, Lossless)
    requires WireLegal(c, WireApply(c, w, x), rest, Lossless)
    ensures WireLegal(c, w, [x] + rest, Lossless)
    ensures WireExec(c, w, [x] + rest, Lossless) == WireExec(c, WireApply(c, w, x), rest, Lossless)
  {
    assert ([x] + rest)[1..] == rest;
    hide WireShape, WireEnabled, WireAllowed, WireApply;
  }

  lemma {:induction false} RunKeepsAsked(c: Config, s: State, steps: seq<Step>, n: Network)
    requires Shape(c, s) && OnlyAsked(c, s) && Legal(c, s, steps, n)
    ensures OnlyAsked(c, Exec(c, s, steps, n))
    decreases |steps|
  {
    hide Shape, OnlyAsked, Enabled, Apply, Allowed;
    if steps != [] {
      StepKeepsAsked(c, s, steps[0]);
      RunKeepsAsked(c, Apply(c, s, steps[0]), steps[1..], n);
    }
  }

  /** Byte for byte: from wherever a run on any network has got to, frames can be forwarded without further
      loss until everything is at rest. */
  lemma WireSettles(c: Config, xs: seq<WireStep>, n: Network) returns (ys: seq<WireStep>)
    requires WellFormed(c) && NamesFit(c) && WireLegal(c, WireInit(c), xs, n)
    ensures var w := WireExec(c, WireInit(c), xs, n);
      WireLegal(c, w, ys, Lossless) && WireQuiescent(WireExec(c, w, ys, Lossless))
  {
    hide *;
    WireInitRefines(c, xs, n);
    var steps := Project(c, WireInit(c), xs, n);
    InitSound(c);
    RunKeepsSound(c, Init(c), steps, n);
    InitAsked(c);
    RunKeepsAsked(c, Init(c), steps, n);
    ys := WireSettlesFrom(c, WireExec(c, WireInit(c), xs, n), Exec(c, Init(c), steps, n));
  }

  lemma WireAtRest(c: Config, xs: seq<WireStep>)
    requires NamesFit(c) && WireLegal(c, WireInit(c), xs, Lossless)
    requires WireQuiescent(WireExec(c, WireInit(c), xs, Lossless))
    ensures var steps := Project(c, WireInit(c), xs, Lossless);
      && Legal(c, Init(c), steps, Lossless) && Quiescent(Exec(c, Init(c), steps, Lossless))
      && WireExec(c, WireInit(c), xs, Lossless).hosts == Exec(c, Init(c), steps, Lossless).hosts
  {
    WireInitRefines(c, xs, Lossless);
  }

  /** Byte for byte: lossless bridges, frames built and parsed as the tool does, tags stripped anywhere. */
  lemma WireQuiescentExact(c: Config, xs: seq<WireStep>, p: Port, q: Port, v: u16)
    requires WellFormed(c) && NamesFit(c) && WireLegal(c, WireInit(c), xs, Lossless)
    requires IsPort(c, p) && IsPort(c, q) && WireQuiescent(WireExec(c, WireInit(c), xs, Lossless))
    ensures Lists(WireExec(c, WireInit(c), xs, Lossless).hosts[p.host].connection, LinkBetween(c, p, q), v) <==>
            Expected(c, p, q, v)
  {
    hide *;
    WireAtRest(c, xs);
    QuiescentExact(c, Project(c, WireInit(c), xs, Lossless), p, q, v);
  }

  /** Byte for byte: over two-way links both ends print the same ascending list. */
  lemma WireQuiescentSymmetric(c: Config, xs: seq<WireStep>, p: Port, q: Port)
    requires WellFormed(c) && TwoWay(c) && NamesFit(c) && WireLegal(c, WireInit(c), xs, Lossless)
    requires IsPort(c, p) && IsPort(c, q) && WireQuiescent(WireExec(c, WireInit(c), xs, Lossless))
    ensures var w := WireExec(c, WireInit(c), xs, Lossless);
      var there := Vlans(w.hosts[p.host].connection, LinkBetween(c, p, q));
      && there == Vlans(w.hosts[q.host].connection, LinkBetween(c, q, p))
      && Ascending(there)
      && forall v :: v in there <==> Carries(c, p, q, v) && (Asks(c, p.host, v) || Asks(c, q.host, v))
  {
    hide *;
    WireAtRest(c, xs);
    QuiescentSymmetric(c, Project(c, WireInit(c), xs, Lossless), p, q);
  }

  /** Byte for byte: any two lossless runs that come to rest leave every node with the same map. */
  lemma WireQuiescentUnique(c: Config, xs: seq<WireStep>, ys: seq<WireStep>, h: nat)
    requires WellFormed(c) && NamesFit(c) && h < |c.hosts|
    requires WireLegal(c, WireInit(c), xs, Lossless) && WireQuiescent(WireExec(c, WireInit(c), xs, Lossless))
    requires WireLegal(c, WireInit(c), ys, Lossless) && WireQuiescent(WireExec(c, WireInit(c), ys, Lossless))
    ensures WireExec(c, WireInit(c), xs, Lossless).hosts[h].connection ==
            WireExec(c, WireInit(c), ys, Lossless).hosts[h].connection
  {
    hide *;
    WireAtRest(c, xs);
    WireAtRest(c, ys);
    QuiescentUnique(c, Project(c, WireInit(c), xs, Lossless), Project(c, WireInit(c), ys, Lossless), h);
  }
}
