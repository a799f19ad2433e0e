/** The topology task: peers heard on local interfaces, folded into a map of VLAN lists. */
module Topology {
  import opened Bytes
  import opened Frame
  import opened VlanList

  datatype Node = Node(host: Name, nic: Interface)
  datatype Link = Link(me: Node, peer: Node)

  /** What the tasks pass to each other: a local interface index and a peer. */
  datatype Entry = Entry(index: u32, peer: Peer)

  type Connections = map<Link, seq<u16>>

  /** The first interface with that index. */
  function NicAt(nics: seq<Interface>, index: u32): (r: Option<nat>)
    ensures r.Some? ==> r.value < |nics| && nics[r.value].index == index
    ensures r.Some? ==> forall k :: 0 <= k < r.value ==> nics[k].index != index
    ensures r.None? ==> forall k :: 0 <= k < |nics| ==> nics[k].index != index
  {
    if nics == [] then None
    else if nics[0].index == index then Some(0)
    else match NicAt(nics[1..], index)
      case None => None
      case Some(k) => Some(k + 1)
  }

  /** `k` is the first interface with the index. */
  ghost predicate FirstAt(nics: seq<Interface>, index: u32, k: nat) {
    k < |nics| && nics[k].index == index && forall j :: 0 <= j < k ==> nics[j].index != index
  }

  lemma NicAtFirst(nics: seq<Interface>, index: u32)
    ensures forall k: nat :: FirstAt(nics, index, k) <==> NicAt(nics, index) == Some(k)
    ensures NicAt(nics, index).None? <==> forall k :: 0 <= k < |nics| ==> nics[k].index != index
  {
    hide NicAt;
    forall k: nat | FirstAt(nics, index, k) ensures NicAt(nics, index) == Some(k) {
      assert NicAt(nics, index).Some?;
    }
  }

  /** A peer as the map stores it: index and state take their default values. */
  function PeerNode(p: Peer): Node {
    Node(p.host, Interface(0, p.nic, p.mac, Up))
  }

  function LinkOf(host: Name, nics: seq<Interface>, e: Entry): Option<Link> {
    match NicAt(nics, e.index)
    case None => None
    case Some(k) => Some(Link(Node(host, nics[k]), PeerNode(e.peer)))
  }

  function AddVlan(c: Connections, k: Link, v: u16): Connections {
    c[k := if k in c then Push(c[k], v) else [v]]
  }

  /** One turn of the topology loop; an unknown interface index changes nothing. */
  function Record(host: Name, nics: seq<Interface>, c: Connections, e: Entry): Connections {
    match LinkOf(host, nics, e)
    case None => c
    case Some(k) => AddVlan(c, k, e.peer.vlan)
  }

  function RecordAll(host: Name, nics: seq<Interface>, es: seq<Entry>): Connections {
    if es == [] then map[]
    else Record(host, nics, RecordAll(host, nics, es[..|es| - 1]), es[|es| - 1])
  }

  /** Field by field: `d` is the map `c` after entry `e`. The key joins the first own interface with the
      index, under the own host name, to the peer under the names and address it announced, with index 0 and
      state up; its list gains the VLAN and is ascending; no other key changes. */
  ghost predicate Updated(host: Name, nics: seq<Interface>, c: Connections, e: Entry, d: Connections) {
    && ((forall k :: 0 <= k < |nics| ==> nics[k].index != e.index) ==> d == c)
    && (forall k: nat :: FirstAt(nics, e.index, k) ==>
          KeyUpdated(c, d, Link(Node(host, nics[k]), Node(e.peer.host, Interface(0, e.peer.nic, e.peer.mac, Up))),
                     e.peer.vlan))
  }

  ghost predicate KeyUpdated(c: Connections, d: Connections, key: Link, v: u16) {
    && d.Keys == c.Keys + {key}
    && (forall j :: j in c && j != key ==> d[j] == c[j])
    && (forall x :: x in d[key] <==> x == v || (key in c && x in c[key]))
    && Ascending(d[key])
  }

  lemma RecordUpdates(host: Name, nics: seq<Interface>, c: Connections, e: Entry)
    ensures Updated(host, nics, c, e, Record(host, nics, c, e))
  {
    var k := NicAt(nics, e.index);
    NicAtFirst(nics, e.index);
    hide FirstAt;
    if k.Some? {
      var key := Link(Node(host, nics[k.value]), Node(e.peer.host, Interface(0, e.peer.nic, e.peer.mac, Up)));
      assert LinkOf(host, nics, e) == Some(key);
      AddVlanUpdates(c, key, e.peer.vlan);
      hide AddVlan, LinkOf, KeyUpdated;
    }
  }

  lemma AddVlanUpdates(c: Connections, key: Link, v: u16)
    ensures KeyUpdated(c, AddVlan(c, key, v), key, v)
  {
    hide Push;
    if key in c {
      PushAddsMember(c[key], v);
    }
  }

  // ---------------------------------------------------------------- the map as a set

  ghost predicate Tidy(c: Connections) {
    forall k :: k in c ==> c[k] != [] && Ascending(c[k])
  }

  ghost predicate Lists(c: Connections, k: Link, v: u16) {
    k in c && v in c[k]
  }

  lemma AddVlanAddsMember(c: Connections, k: Link, v: u16)
    requires Tidy(c)
    ensures Tidy(AddVlan(c, k, v))
    ensures forall j, x :: Lists(AddVlan(c, k, v), j, x) <==> Lists(c, j, x) || (j == k && x == v)
  {
    hide Push;
    if k in c {
      PushAddsMember(c[k], v);
    }
  }

  lemma RecordAddsMember(host: Name, nics: seq<Interface>, c: Connections, e: Entry)
    requires Tidy(c)
    ensures Tidy(Record(host, nics, c, e))
    ensures forall k, v :: Lists(Record(host, nics, c, e), k, v) <==>
              Lists(c, k, v) || (LinkOf(host, nics, e) == Some(k) && e.peer.vlan == v)
  {
    var link := LinkOf(host, nics, e);
    hide AddVlan, Lists, LinkOf, Tidy;
    if link.Some? {
      AddVlanAddsMember(c, link.value, e.peer.vlan);
    }
  }

  /** Tidy maps with the same members are the same map. */
  lemma TidyUnique(c: Connections, d: Connections)
    requires Tidy(c) && Tidy(d)
    requires forall k, v :: Lists(c, k, v) <==> Lists(d, k, v)
    ensures c == d
  {
    forall k ensures k in c <==> k in d {
      if k in c { assert Lists(c, k, c[k][0]); }
      if k in d { assert Lists(d, k, d[k][0]); }
    }
    forall k | k in c ensures c[k] == d[k] {
      forall v: u16 ensures v in c[k] <==> v in d[k] {
        assert Lists(c, k, v) <==> Lists(d, k, v);
      }
      AscendingUnique(c[k], d[k]);
    }
  }

  ghost predicate Heard(host: Name, nics: seq<Interface>, es: seq<Entry>, k: Link, v: u16) {
    exists e :: e in es && LinkOf(host, nics, e) == Some(k) && e.peer.vlan == v
  }

  /** After any message sequence the map holds exactly what was heard, in strictly ascending lists. */
  lemma {:induction false} RecordAllExact(host: Name, nics: seq<Interface>, es: seq<Entry>)
    ensures Tidy(RecordAll(host, nics, es))
    ensures forall k, v :: Lists(RecordAll(host, nics, es), k, v) <==> Heard(host, nics, es, k, v)
  {
    if es != [] {
      var init, last := es[..|es| - 1], es[|es| - 1];
      RecordAllExact(host, nics, init);
      RecordAddsMember(host, nics, RecordAll(host, nics, init), last);
      hide LinkOf, Record, Lists, Tidy;
      assert es == init + [last];
      forall k, v ensures Heard(host, nics, es, k, v) <==>
          Heard(host, nics, init, k, v) || (LinkOf(host, nics, last) == Some(k) && last.peer.vlan == v) {
      }
    }
  }

  /** Reordering or repeating messages does not change the map. */
  lemma OrderIndependent(host: Name, nics: seq<Interface>, es: seq<Entry>, fs: seq<Entry>)
    requires forall e :: e in es <==> e in fs
    ensures RecordAll(host, nics, es) == RecordAll(host, nics, fs)
  {
    RecordAllExact(host, nics, es);
    RecordAllExact(host, nics, fs);
    hide RecordAll, Lists, Tidy;
    forall k, v ensures Heard(host, nics, es, k, v) <==> Heard(host, nics, fs, k, v) {
    }
    TidyUnique(RecordAll(host, nics, es), RecordAll(host, nics, fs));
  }
}
