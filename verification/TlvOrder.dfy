/** The order of TLVs: the parser's documentation says it is checked, the walk does not look at it. */
module TlvOrder {
  import opened Bytes
  import opened Tlv
  import opened Lldpdu

  /** Section 8.2 of IEEE 802.1AB-2009: chassis, port and time to live come first, in this order and
      nowhere else, and nothing follows End Of LLDPDU. */
  predicate InSequence(tlvs: seq<Tlv>) {
    && |tlvs| >= 3 && tlvs[0].ChassisId? && tlvs[1].PortId? && tlvs[2].Ttl?
    && (forall i :: 3 <= i < |tlvs| ==> !tlvs[i].ChassisId? && !tlvs[i].PortId? && !tlvs[i].Ttl?)
    && (forall i :: 3 <= i < |tlvs| - 1 ==> !tlvs[i].EndOfPdu?)
  }

  /** The type numbers in the headers the walk comes to, read without parsing a value. */
  function HeaderNumbers(b: seq<u8>): (r: seq<u8>)
    ensures |r| == |Cuts(b)| - 1
  {
    CutsChain(b);
    hide Cuts, Extent;
    seq(|Cuts(b)| - 1, i requires 0 <= i < |Cuts(b)| - 1 => HeaderType(b[Cuts(b)[i]..]))
  }

  predicate NumbersInSequence(ns: seq<u8>) {
    && |ns| >= 3 && ns[0] == 1 && ns[1] == 2 && ns[2] == 3
    && (forall i :: 3 <= i < |ns| ==> ns[i] == 0 || ns[i] > 3)
    && (forall i :: 3 <= i < |ns| - 1 ==> ns[i] != 0)
  }

  /** `t` is of the kind that number `n` names. */
  predicate KindIs(t: Tlv, n: u8) {
    && (t.EndOfPdu? <==> n == 0)
    && (t.ChassisId? <==> n == 1)
    && (t.PortId? <==> n == 2)
    && (t.Ttl? <==> n == 3)
  }

  lemma ParseKeepsKind(n: u8, len: u16, value: seq<u8>)
    ensures var r := ParseValue(TypeOf(n), len, value); r.Some? ==> KindIs(r.value, n)
  {
    hide Slice, AsMac, AsText, AsIp, Word, ParseNetworkId;
  }

  /** Each parsed TLV is of the kind its own header names. */
  lemma WalkKinds(b: seq<u8>, i: nat)
    requires Walk(b).Ok? && i < |Walk(b).tlvs|
    ensures |HeaderNumbers(b)| == |Walk(b).tlvs| && KindIs(Walk(b).tlvs[i], HeaderNumbers(b)[i])
  {
    WalkTiles(b);
    WalkParses(b, i);
    var at := Cuts(b)[i];
    ParseKeepsKind(HeaderType(b[at..]), HeaderLength(b[at..]), b[at + 2..]);
    hide ParseValue, TypeOf, KindIs, Walk, Cuts, Tiles, HeaderType, HeaderLength;
  }

  lemma SequenceOfKinds(tlvs: seq<Tlv>, ns: seq<u8>)
    requires |tlvs| == |ns| && forall i :: 0 <= i < |ns| ==> KindIs(tlvs[i], ns[i])
    ensures InSequence(tlvs) <==> NumbersInSequence(ns)
  {
    if NumbersInSequence(ns) {
      assert KindIs(tlvs[0], ns[0]) && KindIs(tlvs[1], ns[1]) && KindIs(tlvs[2], ns[2]);
    }
    if InSequence(tlvs) {
      assert KindIs(tlvs[0], ns[0]) && KindIs(tlvs[1], ns[1]) && KindIs(tlvs[2], ns[2]);
      assert forall i :: 3 <= i < |ns| ==> KindIs(tlvs[i], ns[i]);
    }
  }

  /** What an accepted payload is read as is in sequence exactly when its headers are: nothing else is
      refused or reordered on the way. */
  lemma InSequenceExactly(b: seq<u8>)
    requires Walk(b).Ok?
    ensures InSequence(Walk(b).tlvs) <==> NumbersInSequence(HeaderNumbers(b))
  {
    WalkTiles(b);
    hide *;
    forall i | 0 <= i < |HeaderNumbers(b)| ensures KindIs(Walk(b).tlvs[i], HeaderNumbers(b)[i]) {
      WalkKinds(b, i);
    }
    SequenceOfKinds(Walk(b).tlvs, HeaderNumbers(b));
  }

  /** Acceptance is about extents alone; the documented check, accept only what is in sequence, is met on
      exactly the payloads that cannot be tiled or whose headers are in sequence already. */
  lemma SequenceCheckedExactly(b: seq<u8>)
    requires ReachedMeet(b)
    ensures Walk(b).Ok? <==> exists cuts :: Tiles(b, cuts)
    ensures (Walk(b).Ok? ==> InSequence(Walk(b).tlvs)) <==>
            ((exists cuts :: Tiles(b, cuts)) ==> NumbersInSequence(HeaderNumbers(b)))
  {
    hide *;
    WalkSucceedsExactly(b);
    if Walk(b).Ok? {
      InSequenceExactly(b);
    }
  }

  /** Exchanging two tiled parts anywhere in a payload exchanges their TLVs and changes nothing else. */
  lemma PartsExchange(head: seq<u8>, x: seq<u8>, y: seq<u8>, rest: seq<u8>)
    requires ExactlyTiled(head) && ExactlyTiled(x) && ExactlyTiled(y)
    ensures Walk(head).Ok? && Walk(x).Ok? && Walk(y).Ok?
    ensures Walk(head + (x + (y + rest))) == Prepend(Walk(head).tlvs + Walk(x).tlvs + Walk(y).tlvs, Walk(rest))
    ensures Walk(head + (y + (x + rest))) == Prepend(Walk(head).tlvs + Walk(y).tlvs + Walk(x).tlvs, Walk(rest))
  {
    hide *;
    WalkComposes(head, x + (y + rest));
    WalkComposes(head, y + (x + rest));
    WalkComposes(x, y + rest);
    WalkComposes(x, rest);
    WalkComposes(y, x + rest);
    WalkComposes(y, rest);
    PrependTwice(Walk(x).tlvs, Walk(y).tlvs, Walk(rest));
    PrependTwice(Walk(y).tlvs, Walk(x).tlvs, Walk(rest));
    PrependTwice(Walk(head).tlvs, Walk(x).tlvs + Walk(y).tlvs, Walk(rest));
    PrependTwice(Walk(head).tlvs, Walk(y).tlvs + Walk(x).tlvs, Walk(rest));
    Associate(Walk(head).tlvs, Walk(x).tlvs, Walk(y).tlvs);
    Associate(Walk(head).tlvs, Walk(y).tlvs, Walk(x).tlvs);
  }

  lemma Associate(a: seq<Tlv>, b: seq<Tlv>, c: seq<Tlv>)
    ensures a + (b + c) == a + b + c
  {
  }

  /** The walk goes on behind End Of LLDPDU, so padding alone breaks the order: a list in sequence stays so
      exactly when at most one End entry is added, and none behind one that is there. */
  lemma PaddedInSequenceExactly(a: seq<u8>, m: nat)
    requires ExactlyTiled(a)
    ensures Walk(a).Ok? && Walk(a + Zeros(m)).Ok?
    ensures var tlvs := Walk(a).tlvs;
      InSequence(Walk(a + Zeros(m)).tlvs) <==>
      InSequence(tlvs) && (m < 2 || (m < 4 && !tlvs[|tlvs| - 1].EndOfPdu?))
  {
    hide *;
    PaddingHarmless(a, m);
    SequenceThenEnds(Walk(a).tlvs, m / 2);
  }

  lemma SequenceThenEnds(tlvs: seq<Tlv>, n: nat)
    ensures InSequence(tlvs + Ends(n)) <==>
            InSequence(tlvs) && (n == 0 || (n == 1 && !tlvs[|tlvs| - 1].EndOfPdu?))
  {
    var all := tlvs + Ends(n);
    assert forall i :: 0 <= i < |tlvs| ==> all[i] == tlvs[i];
    assert forall i {:trigger all[i]} :: |tlvs| <= i < |all| ==> all[i] == EndOfPdu;
    if n == 0 {
      assert all == tlvs;
    } else {
      assert all[|tlvs|] == EndOfPdu;
      if InSequence(all) {
        assert |tlvs| >= 3 && n == 1;
        assert tlvs[|tlvs| - 1] == all[|tlvs| - 1];
      }
    }
  }

  lemma WalkOnce(b: seq<u8>)
    requires |b| >= 2 && Extent(b) <= |b|
    ensures Walk(b) == match ParseValue(TypeOf(HeaderType(b)), HeaderLength(b), b[2..]) {
        case None => Panic
        case Some(t) => Prepend([t], Walk(b[Extent(b)..]))
      }
  {
    hide ParseValue, TypeOf;
  }

  /** Accepted although out of sequence: nothing at all, and an End entry with a time to live behind it. */
  lemma OrderUnchecked()
    ensures Walk([]) == Ok([]) && !InSequence([])
    ensures Walk([0, 0, 6, 2, 0, 120]) == Ok([EndOfPdu, Ttl(2, 120)]) && !InSequence([EndOfPdu, Ttl(2, 120)])
  {
    hide Walk;
    ShortWalk([]);
    var b: seq<u8> := [0, 0, 6, 2, 0, 120];
    var t: seq<u8> := [6, 2, 0, 120];
    assert t[2..] == [0, 120] && t[4..] == [] && b[2..] == t;
    WalkOnce(t);
    WalkOnce(b);
  }
}
