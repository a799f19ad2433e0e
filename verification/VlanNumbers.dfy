/** What a listed VLAN number means: a tag holds twelve bits of it, the announcement all sixteen. */
module VlanNumbers {
  import opened Bytes
  import opened Frame
  import opened Topology
  import opened Discovery
  import opened Causality
  import opened Completeness
  import opened Termination

  // ---------------------------------------------------------------- what runs can list

  lemma {:induction false} LosslessRunRoutes(c: Config, s: State, steps: seq<Step>)
    requires Shape(c, s) && Legal(c, s, steps, Lossless)
    ensures Legal(c, s, steps, Routing) && Exec(c, s, steps, Routing) == Exec(c, s, steps, Lossless)
    decreases |steps|
  {
    hide Enabled, Apply, Allowed, Shape;
    if steps != [] {
      LosslessRoutes(c, s, steps[0]);
      LosslessRunRoutes(c, Apply(c, s, steps[0]), steps[1..]);
    }
  }

  /** Some run over bridges that may lose and repeat leaves `h` listing `v` under `k`. */
  ghost predicate Listable(c: Config, h: nat, k: Link, v: u16)
    requires h < |c.hosts|
  {
    exists steps ::
      Legal(c, Init(c), steps, Routing) && Lists(Exec(c, Init(c), steps, Routing).hosts[h].connection, k, v)
  }

  /** A lossless run to rest lists every expected VLAN. */
  lemma ExpectedIsListable(c: Config, p: Port, q: Port, v: u16)
    requires WellFormed(c) && IsPort(c, p) && IsPort(c, q) && Expected(c, p, q, v)
    ensures Listable(c, p.host, LinkBetween(c, p, q), v)
  {
    hide WellFormed, Expected, Legal, Exec, LinkBetween, Lists, Quiescent, Sound;
    InitSound(c);
    var steps := Settles(c, Init(c));
    QuiescentExact(c, steps, p, q, v);
    LosslessRunRoutes(c, Init(c), steps);
  }

  lemma ListableIsExpected(c: Config, h: nat, k: Link, v: u16)
    requires WellFormed(c) && h < |c.hosts| && Listable(c, h, k, v)
    ensures exists p, q ::
      IsPort(c, p) && IsPort(c, q) && p.host == h && k == LinkBetween(c, p, q) && Expected(c, p, q, v)
  {
    var steps :|
      Legal(c, Init(c), steps, Routing) && Lists(Exec(c, Init(c), steps, Routing).hosts[h].connection, k, v);
    hide *;
    NeverWrong(c, steps, h, k, v);
  }

  /** Runs can list for a link exactly what is expected on it. */
  lemma ListableExactly(c: Config, p: Port, q: Port, v: u16)
    requires WellFormed(c) && IsPort(c, p) && IsPort(c, q)
    ensures Listable(c, p.host, LinkBetween(c, p, q), v) <==> Expected(c, p, q, v)
  {
    hide WellFormed, Expected, LinkBetween, Listable;
    var k := LinkBetween(c, p, q);
    if Expected(c, p, q, v) {
      ExpectedIsListable(c, p, q, v);
    }
    if Listable(c, p.host, k, v) {
      ListableIsExpected(c, p.host, k, v);
      var p', q' :| IsPort(c, p') && IsPort(c, q') && p'.host == p.host &&
        k == LinkBetween(c, p', q') && Expected(c, p', q', v);
      LinkNames(c, p, q, p', q');
    }
  }

  // ---------------------------------------------------------------- which of it is real

  /** `k` joins a port of `h` to one whose frames reach it tagged `v`. */
  ghost predicate CarriedAs(c: Config, h: nat, k: Link, v: u16) {
    exists p, q :: IsPort(c, p) && IsPort(c, q) && p.host == h && k == LinkBetween(c, p, q) &&
      Wire(q, p, Tagged(v)) in c.wires
  }

  /** Whatever the run, every tagged VLAN a node lists for a link is one that link carries. */
  ghost predicate NumbersReal(c: Config) {
    forall h: nat, k, v: u16 :: h < |c.hosts| && v != 0 && Listable(c, h, k, v) ==> CarriedAs(c, h, k, v)
  }

  ghost predicate ProbesFitTag(c: Config) {
    forall p, v: u16 :: IsPort(c, p) && Asks(c, p.host, v) ==> v < 4096
  }

  lemma ExpectedCarried(c: Config, p: Port, q: Port, v: u16)
    requires IsPort(c, p) && IsPort(c, q) && Expected(c, p, q, v) && v != 0 && ProbesFitTag(c)
    ensures CarriedAs(c, p.host, LinkBetween(c, p, q), v)
  {
    assert v < 4096;
    assert Wire(q, p, Tagged(v)) in c.wires;
  }

  lemma FittingProbesReal(c: Config)
    requires WellFormed(c) && ProbesFitTag(c)
    ensures NumbersReal(c)
  {
    hide Listable, Expected, LinkBetween, WellFormed, CarriedAs, ProbesFitTag;
    forall h: nat, k, v: u16 | h < |c.hosts| && v != 0 && Listable(c, h, k, v) ensures CarriedAs(c, h, k, v) {
      ListableIsExpected(c, h, k, v);
      var p, q :| IsPort(c, p) && IsPort(c, q) && p.host == h && k == LinkBetween(c, p, q) && Expected(c, p, q, v);
      ExpectedCarried(c, p, q, v);
    }
  }

  /** Only the wire from `p` to `q` that carries the low twelve bits of `v`. */
  function LoneWire(hosts: seq<Host>, p: Port, q: Port, v: u16): Config {
    Config(hosts, {Wire(p, q, TagOf(v))})
  }

  /** Over one wire, a lossless run to rest makes `q` list a VLAN that no link carries. */
  lemma WideProbeListed(hosts: seq<Host>, p: Port, q: Port, v: u16)
    requires var c := LoneWire(hosts, p, q, v);
      WellFormed(c) && IsPort(c, p) && IsPort(c, q) && p != q && Asks(c, p.host, v) && v >= 4096
    ensures var c := LoneWire(hosts, p, q, v);
      Listable(c, q.host, LinkBetween(c, q, p), v) && !CarriedAs(c, q.host, LinkBetween(c, q, p), v)
  {
    var c := LoneWire(hosts, p, q, v);
    hide Listable, Asks, LinkBetween;
    assert Expected(c, q, p, v);
    ExpectedIsListable(c, q, p, v);
  }

  lemma SameInstallation(hosts: seq<Host>, wires: set<Wire>)
    ensures WellFormed(Config(hosts, {})) ==> WellFormed(Config(hosts, wires))
    ensures ProbesFitTag(Config(hosts, wires)) <==> ProbesFitTag(Config(hosts, {}))
    ensures forall p :: IsPort(Config(hosts, wires), p) <==> IsPort(Config(hosts, {}), p)
  {
    var c, d := Config(hosts, {}), Config(hosts, wires);
    assert forall p :: IsPort(d, p) <==> IsPort(c, p);
    assert forall p :: IsPort(c, p) ==> Nic(d, p) == Nic(c, p);
    assert forall p, v: u16 :: IsPort(c, p) ==> (Asks(d, p.host, v) <==> Asks(c, p.host, v));
  }

  /** The range reader lets through numbers above the tag's twelve bits. However the installation is wired
      and whatever the run, listed numbers are real exactly when every node probes below 4096 only. */
  lemma NumbersRealExactly(hosts: seq<Host>, a: Port, b: Port)
    requires WellFormed(Config(hosts, {}))
    requires IsPort(Config(hosts, {}), a) && IsPort(Config(hosts, {}), b) && a != b
    ensures (forall wires: set<Wire> :: NumbersReal(Config(hosts, wires))) <==> ProbesFitTag(Config(hosts, {}))
  {
    if p, v: u16 :| IsPort(Config(hosts, {}), p) && Asks(Config(hosts, {}), p.host, v) && v >= 4096 {
      assert !ProbesFitTag(Config(hosts, {}));
      var q := if p == a then b else a;
      var c := LoneWire(hosts, p, q, v);
      SameInstallation(hosts, c.wires);
      hide WellFormed, Listable, CarriedAs, LinkBetween, ProbesFitTag;
      WideProbeListed(hosts, p, q, v);
      assert !NumbersReal(c);
      assert c == Config(hosts, c.wires);
    } else {
      hide WellFormed, NumbersReal;
      forall wires: set<Wire> ensures NumbersReal(Config(hosts, wires)) {
        SameInstallation(hosts, wires);
        FittingProbesReal(Config(hosts, wires));
      }
    }
  }
}
