/** The LLDP payload walk: headers, extents, and what an encoded list is read back as. */
module Lldpdu {
  import opened Bytes
  import opened Tlv

  /** `Panic` is a value parser reading out of range. */
  datatype Outcome = Ok(tlvs: seq<Tlv>) | NotLldp | WrongLength | Panic

  // ---------------------------------------------------------------- headers

  /** The upper seven bits of the first header byte. */
  function HeaderType(b: seq<u8>): u8
    requires |b| >= 2
  {
    b[0] / 2
  }

  /** The low bit of the first byte weighs 512 here, not 256. */
  function HeaderLength(b: seq<u8>): u16
    requires |b| >= 2
  {
    var high: u16 := b[0] % 2;
    high * 512 + b[1]
  }

  /** The first TLV's extent, header included. */
  function Extent(b: seq<u8>): nat
    requires |b| >= 2
  {
    2 + HeaderLength(b)
  }

  // ---------------------------------------------------------------- the walk

  function Prepend(tlvs: seq<Tlv>, o: Outcome): Outcome {
    if o.Ok? then Ok(tlvs + o.tlvs) else o
  }

  function Walk(b: seq<u8>): Outcome
    decreases |b|
  {
    if |b| < 2 then Ok([])
    else if |b| < Extent(b) then WrongLength
    else match ParseValue(TypeOf(HeaderType(b)), HeaderLength(b), b[2..])
      case None => Panic
      case Some(t) => Prepend([t], Walk(b[Extent(b)..]))
  }

  lemma PrependTwice(xs: seq<Tlv>, ys: seq<Tlv>, o: Outcome)
    ensures Prepend(xs, Prepend(ys, o)) == Prepend(xs + ys, o)
  {
    if o.Ok? {
      assert xs + (ys + o.tlvs) == xs + ys + o.tlvs;
    }
  }

  /** `Lldpdu::from_bytes`. */
  method FromBytes(payload: seq<u8>) returns (r: Outcome)
    ensures r == Walk(payload)
  {
    hide ParseValue, TypeOf;
    var tlvs: seq<Tlv> := [];
    var pos := 0;
    assert payload[0..] == payload;
    while pos + 1 < |payload|
      invariant pos <= |payload|
      invariant Prepend(tlvs, Walk(payload[pos..])) == Walk(payload)
      decreases |payload| - pos
    {
      var lldpType := payload[pos] / 2;
      var high: u16 := payload[pos] % 2;
      var length := high * 512 + payload[pos + 1];
      if |payload| < pos + 2 + length {
        return WrongLength;
      }
      ghost var b := payload[pos..];
      assert b[2..] == payload[pos + 2..];
      var t := ParseValue(TypeOf(lldpType), length, payload[pos + 2..]);
      if t.None? {
        return Panic;
      }
      assert b[Extent(b)..] == payload[pos + 2 + length..];
      PrependTwice(tlvs, [t.value], Walk(payload[pos + 2 + length..]));
      tlvs := tlvs + [t.value];
      pos := pos + 2 + length;
    }
    return Ok(tlvs);
  }

  // ---------------------------------------------------------------- tiling

  /** `cuts` are positions reached from 0 by stepping over whole extents. */
  ghost predicate Chain(b: seq<u8>, cuts: seq<nat>) {
    && cuts != [] && cuts[0] == 0
    && (forall i :: 0 <= i < |cuts| ==> cuts[i] <= |b|)
    && (forall i :: 0 <= i < |cuts| - 1 ==> |b| - cuts[i] >= 2 && cuts[i + 1] == cuts[i] + Extent(b[cuts[i]..]))
  }

  /** They end with at most one byte over. */
  ghost predicate Tiles(b: seq<u8>, cuts: seq<nat>) {
    Chain(b, cuts) && |b| - cuts[|cuts| - 1] < 2
  }

  /** The TLV whose header is at `at`, parsed as the walk does. */
  function TlvAt(b: seq<u8>, at: nat): Option<Tlv>
    requires at + 2 <= |b|
  {
    ParseValue(TypeOf(HeaderType(b[at..])), HeaderLength(b[at..]), b[at + 2..])
  }

  function Shift(cuts: seq<nat>, n: nat): (r: seq<nat>)
    ensures |r| == |cuts| && forall i :: 0 <= i < |cuts| ==> r[i] == cuts[i] + n
  {
    seq(|cuts|, i requires 0 <= i < |cuts| => cuts[i] + n)
  }

  /** The header positions of the walk, up to a header that overruns the payload. */
  function Cuts(b: seq<u8>): (r: seq<nat>)
    ensures r != [] && r[0] == 0
    decreases |b|
  {
    if |b| < 2 || |b| < Extent(b) then [0] else [0] + Shift(Cuts(b[Extent(b)..]), Extent(b))
  }

  lemma SuffixAt(b: seq<u8>, n: nat, at: nat)
    requires n <= |b| && at <= |b| - n
    ensures b[n..][at..] == b[at + n..]
  {
  }

  lemma ChainCons(b: seq<u8>, cuts: seq<nat>)
    requires |b| >= 2 && Extent(b) <= |b| && Chain(b[Extent(b)..], cuts)
    ensures Chain(b, [0] + Shift(cuts, Extent(b)))
  {
    var n := Extent(b);
    var all := [0] + Shift(cuts, n);
    hide Extent;
    assert b[0..] == b;
    forall i | 0 <= i < |all| - 1 ensures |b| - all[i] >= 2 && all[i + 1] == all[i] + Extent(b[all[i]..]) {
      if i > 0 {
        SuffixAt(b, n, cuts[i - 1]);
        assert all[i] == cuts[i - 1] + n && all[i + 1] == cuts[i] + n;
      }
    }
  }

  lemma TlvAtSuffix(b: seq<u8>, n: nat, at: nat)
    requires n <= |b| && at + 2 <= |b| - n
    ensures TlvAt(b, at + n) == TlvAt(b[n..], at)
  {
    SuffixAt(b, n, at);
    SuffixAt(b, n, at + 2);
  }

  lemma WalkStep(b: seq<u8>)
    requires |b| >= 2 && Walk(b).Ok?
    ensures Extent(b) <= |b| && Walk(b[Extent(b)..]).Ok?
    ensures TlvAt(b, 0).Some? && Walk(b).tlvs == [TlvAt(b, 0).value] + Walk(b[Extent(b)..]).tlvs
    ensures Cuts(b) == [0] + Shift(Cuts(b[Extent(b)..]), Extent(b))
  {
    assert b[0..] == b;
  }

  lemma CutsStep(b: seq<u8>)
    ensures Cuts(b) ==
      if |b| < 2 || |b| < Extent(b) then [0] else [0] + Shift(Cuts(b[Extent(b)..]), Extent(b))
  {
  }

  lemma ChainLast(b: seq<u8>, cuts: seq<nat>)
    requires Chain(b, cuts)
    ensures cuts[|cuts| - 1] <= |b|
  {
  }

  lemma {:induction false} CutsChain(b: seq<u8>)
    ensures Chain(b, Cuts(b))
    ensures var last := Cuts(b)[|Cuts(b)| - 1]; |b| - last < 2 || |b| - last < Extent(b[last..])
    decreases |b|
  {
    assert b[0..] == b;
    CutsStep(b);
    if 2 <= |b| && Extent(b) <= |b| {
      hide Extent, Chain, Cuts;
      var n := Extent(b);
      var tail := Cuts(b[n..]);
      CutsChain(b[n..]);
      ChainCons(b, tail);
      ChainLast(b[n..], tail);
      SuffixAt(b, n, tail[|tail| - 1]);
    }
  }

  lemma {:induction false} WalkEnds(b: seq<u8>)
    requires Walk(b).Ok?
    ensures |b| - Cuts(b)[|Cuts(b)| - 1] < 2 && |Cuts(b)| == |Walk(b).tlvs| + 1
    decreases |b|
  {
    if |b| >= 2 {
      hide *;
      WalkStep(b);
      WalkEnds(b[Extent(b)..]);
    }
  }

  /** A walk that succeeds tiles the payload, leaving at most one byte, one TLV per tile. */
  lemma WalkTiles(b: seq<u8>)
    requires Walk(b).Ok?
    ensures Tiles(b, Cuts(b)) && |Cuts(b)| == |Walk(b).tlvs| + 1
  {
    CutsChain(b);
    WalkEnds(b);
  }

  lemma ShortWalk(b: seq<u8>)
    ensures |b| < 2 ==> Walk(b) == Ok([])
  {
    hide ParseValue, TypeOf;
  }

  lemma WalkShifts(b: seq<u8>, i: nat)
    requires |b| >= 2 && Walk(b).Ok? && 0 < i < |Walk(b).tlvs| && i < |Cuts(b)|
    ensures Extent(b) <= |b|
    ensures var tail := b[Extent(b)..];
      && Walk(tail).Ok? && i - 1 < |Walk(tail).tlvs| && i - 1 < |Cuts(tail)|
      && Walk(b).tlvs[i] == Walk(tail).tlvs[i - 1]
      && Cuts(b)[i] == Cuts(tail)[i - 1] + Extent(b)
  {
    hide *;
    WalkStep(b);
  }

  /** Its TLVs are, in order, those at the tiles. */
  lemma {:induction false} WalkParses(b: seq<u8>, i: nat)
    requires Walk(b).Ok? && i < |Walk(b).tlvs| && i < |Cuts(b)|
    ensures Cuts(b)[i] + 2 <= |b| && TlvAt(b, Cuts(b)[i]) == Some(Walk(b).tlvs[i])
    decreases i
  {
    hide *;
    ShortWalk(b);
    if i == 0 {
      WalkStep(b);
    } else {
      var n := Extent(b);
      WalkShifts(b, i);
      WalkParses(b[n..], i - 1);
      TlvAtSuffix(b, n, Cuts(b[n..])[i - 1]);
    }
  }

  lemma {:induction false} ChainsAgree(b: seq<u8>, c: seq<nat>, d: seq<nat>, i: nat)
    requires Chain(b, c) && Chain(b, d) && i < |c| && i < |d|
    ensures c[i] == d[i]
  {
    if i > 0 {
      ChainsAgree(b, c, d, i - 1);
      assert c[i - 1 + 1] == c[i] && d[i - 1 + 1] == d[i];
    }
  }

  lemma ChainStep(b: seq<u8>, c: seq<nat>, k: nat)
    requires Chain(b, c) && k + 1 < |c|
    ensures c[k] + 2 <= |b| && c[k] + Extent(b[c[k]..]) <= |b|
  {
    assert c[k + 1] <= |b|;
  }

  /** A chain cannot go on where another one had to stop. */
  lemma ChainNoLonger(b: seq<u8>, c: seq<nat>, d: seq<nat>)
    requires Chain(b, c) && Chain(b, d)
    requires var last := d[|d| - 1]; |b| - last < 2 || |b| - last < Extent(b[last..])
    ensures |c| <= |d|
  {
    var k: nat := |d| - 1;
    hide Chain, Extent;
    if k + 1 < |c| {
      ChainStep(b, c, k);
      ChainsAgree(b, c, d, k);
    }
  }

  /** There is at most one tiling, and it is the one the walk follows. */
  lemma TilesUnique(b: seq<u8>, cuts: seq<nat>)
    requires Tiles(b, cuts)
    ensures cuts == Cuts(b)
  {
    CutsChain(b);
    assert forall i :: 0 <= i < |Cuts(b)| ==> Cuts(b)[i] <= |b|;
    hide Cuts, Chain, Extent;
    ChainNoLonger(b, cuts, Cuts(b));
    ChainNoLonger(b, Cuts(b), cuts);
    forall i | 0 <= i < |cuts| ensures cuts[i] == Cuts(b)[i] {
      ChainsAgree(b, cuts, Cuts(b), i);
    }
  }

  /** Every TLV the walk reaches, and that fits, meets the minimum of its type. */
  predicate ReachedMeet(b: seq<u8>)
    decreases |b|
  {
    |b| < 2 || |b| < Extent(b) ||
    (MeetsMinimum(TypeOf(HeaderType(b)), b[2..Extent(b)]) && ReachedMeet(b[Extent(b)..]))
  }

  /** Such a TLV is parsed from its own bytes. */
  lemma HeadLocal(b: seq<u8>)
    requires |b| >= 2 && Extent(b) <= |b| && MeetsMinimum(TypeOf(HeaderType(b)), b[2..Extent(b)])
    ensures var t, own := TypeOf(HeaderType(b)), b[2..Extent(b)];
      |own| == HeaderLength(b) && Decode(t, own).Some? && ParseValue(t, HeaderLength(b), b[2..]) == Decode(t, own)
  {
    var own, rest := b[2..Extent(b)], b[Extent(b)..];
    assert b[2..] == own + rest;
    MinimumLocal(TypeOf(HeaderType(b)), own, rest);
  }

  /** Then nothing is read out of range, and the walk fails exactly when it comes to a header whose
      extent overruns the payload. */
  lemma {:induction false} WrongLengthExactly(b: seq<u8>)
    requires ReachedMeet(b)
    ensures Walk(b).Ok? || Walk(b).WrongLength?
    ensures Cuts(b)[|Cuts(b)| - 1] <= |b|
    ensures Walk(b).WrongLength? <==> |b| - Cuts(b)[|Cuts(b)| - 1] >= 2
    decreases |b|
  {
    if 2 <= |b| && Extent(b) <= |b| {
      HeadLocal(b);
      WrongLengthExactly(b[Extent(b)..]);
      hide ParseValue, TypeOf, MeetsMinimum, HeaderType, HeaderLength;
    }
  }

  /** In terms of the payload alone: the walk succeeds exactly when the payload can be tiled. */
  lemma WalkSucceedsExactly(b: seq<u8>)
    requires ReachedMeet(b)
    ensures Walk(b).Ok? <==> exists cuts :: Tiles(b, cuts)
  {
    if Walk(b).Ok? {
      WalkTiles(b);
    }
    if cuts :| Tiles(b, cuts) {
      TilesUnique(b, cuts);
      WrongLengthExactly(b);
    }
  }

  /** Header number `i` of the walk has a value that its parser reads out of range. */
  ghost predicate OutOfRangeAt(b: seq<u8>, i: nat) {
    CutsChain(b);
    hide Cuts, Extent, TlvAt;
    i < |Cuts(b)| - 1 && TlvAt(b, Cuts(b)[i]).None?
  }

  ghost predicate OutOfRange(b: seq<u8>) {
    exists i: nat :: OutOfRangeAt(b, i)
  }

  lemma OutOfRangeHead(b: seq<u8>)
    requires |b| >= 2 && Extent(b) <= |b|
    ensures OutOfRangeAt(b, 0) <==> TlvAt(b, 0).None?
  {
    CutsStep(b);
    hide Cuts, Extent, TlvAt;
  }

  lemma OutOfRangeMeans(b: seq<u8>, i: nat)
    ensures i < |Cuts(b)| - 1 ==> Cuts(b)[i] + 2 <= |b|
    ensures OutOfRangeAt(b, i) <==> i < |Cuts(b)| - 1 && TlvAt(b, Cuts(b)[i]).None?
  {
    CutsChain(b);
    hide Cuts, Extent, TlvAt;
  }

  lemma CutsTail(b: seq<u8>, i: nat)
    requires |b| >= 2 && Extent(b) <= |b|
    ensures var tail := Cuts(b[Extent(b)..]);
      |Cuts(b)| == |tail| + 1 && (i < |tail| ==> Cuts(b)[i + 1] == tail[i] + Extent(b))
  {
    CutsStep(b);
    hide Cuts, Extent;
  }

  lemma OutOfRangeTail(b: seq<u8>, i: nat)
    requires |b| >= 2 && Extent(b) <= |b|
    ensures OutOfRangeAt(b, i + 1) <==> OutOfRangeAt(b[Extent(b)..], i)
  {
    hide *;
    var n := Extent(b);
    var tail := Cuts(b[n..]);
    OutOfRangeMeans(b, i + 1);
    OutOfRangeMeans(b[n..], i);
    CutsTail(b, i);
    if i + 1 < |tail| {
      TlvAtSuffix(b, n, tail[i]);
    }
  }

  lemma OutOfRangeStep(b: seq<u8>)
    requires |b| >= 2 && Extent(b) <= |b|
    ensures OutOfRange(b) <==> TlvAt(b, 0).None? || OutOfRange(b[Extent(b)..])
  {
    OutOfRangeHead(b);
    hide OutOfRangeAt, TlvAt, Extent;
    if OutOfRange(b) {
      var i: nat :| OutOfRangeAt(b, i);
      if i > 0 {
        OutOfRangeTail(b, i - 1);
      }
    }
    if OutOfRange(b[Extent(b)..]) {
      var i: nat :| OutOfRangeAt(b[Extent(b)..], i);
      OutOfRangeTail(b, i);
    }
  }

  lemma WalkUnfold(b: seq<u8>)
    ensures |b| < 2 ==> Walk(b) == Ok([])
    ensures |b| >= 2 && |b| < Extent(b) ==> Walk(b) == WrongLength
    ensures |b| >= 2 && Extent(b) <= |b| ==>
      Walk(b) == match TlvAt(b, 0) {
        case None => Panic
        case Some(t) => Prepend([t], Walk(b[Extent(b)..]))
      }
  {
    assert b[0..] == b;
    hide ParseValue, TypeOf;
  }

  lemma CutsUnfold(b: seq<u8>)
    ensures |b| < 2 || |b| < Extent(b) ==> Cuts(b) == [0] && !OutOfRange(b)
    ensures |b| >= 2 && Extent(b) <= |b| ==>
      Cuts(b)[|Cuts(b)| - 1] == Cuts(b[Extent(b)..])[|Cuts(b[Extent(b)..])| - 1] + Extent(b)
  {
    CutsStep(b);
    hide Extent, Cuts, TlvAt;
  }

  /** Over all bytes: the parser reads out of range exactly when some value it comes to does; otherwise it
      fails exactly when a header that overruns the payload is left, and succeeds with at most one byte left. */
  lemma {:induction false} WalkExactly(b: seq<u8>)
    ensures var left := |b| - Cuts(b)[|Cuts(b)| - 1];
      && (Walk(b).Panic? <==> OutOfRange(b))
      && (Walk(b).WrongLength? <==> !OutOfRange(b) && left >= 2)
      && (Walk(b).Ok? <==> !OutOfRange(b) && left < 2)
    decreases |b|
  {
    hide Walk, Cuts, OutOfRange, TlvAt, Prepend, HeaderLength;
    WalkUnfold(b);
    CutsUnfold(b);
    if |b| >= 2 && Extent(b) <= |b| {
      OutOfRangeStep(b);
      WalkExactly(b[Extent(b)..]);
      PrependKeeps(TlvAt(b, 0), Walk(b[Extent(b)..]));
    }
  }

  lemma PrependKeeps(t: Option<Tlv>, o: Outcome)
    ensures t.Some? ==> var r := Prepend([t.value], o);
      (r.Ok? <==> o.Ok?) && (r.WrongLength? <==> o.WrongLength?) && (r.Panic? <==> o.Panic?)
  {
  }

  // ---------------------------------------------------------------- composition

  /** `a` is tiled by TLVs that meet their minimum, with nothing left over. */
  predicate ExactlyTiled(a: seq<u8>)
    decreases |a|
  {
    a == [] ||
    (|a| >= 2 && Extent(a) <= |a| && MeetsMinimum(TypeOf(HeaderType(a)), a[2..Extent(a)]) &&
     ExactlyTiled(a[Extent(a)..]))
  }

  lemma HeadUnaffected(a: seq<u8>, b: seq<u8>)
    requires |a| >= 2 && Extent(a) <= |a| && MeetsMinimum(TypeOf(HeaderType(a)), a[2..Extent(a)])
    ensures var t := Decode(TypeOf(HeaderType(a)), a[2..Extent(a)]);
      && t.Some?
      && Walk(a) == Prepend([t.value], Walk(a[Extent(a)..]))
      && Walk(a + b) == Prepend([t.value], Walk(a[Extent(a)..] + b))
  {
    var n, ab := Extent(a), a + b;
    assert Extent(ab) == n && HeaderType(ab) == HeaderType(a) && HeaderLength(ab) == HeaderLength(a);
    assert ab[2..n] == a[2..n];
    assert ab[n..] == a[n..] + b;
    HeadLocal(a);
    HeadLocal(ab);
    hide ParseValue, TypeOf, MeetsMinimum;
  }

  /** What follows a tiled payload is walked as if it stood alone; errors behind it show unchanged. */
  lemma {:induction false} WalkComposes(a: seq<u8>, b: seq<u8>)
    requires ExactlyTiled(a)
    ensures Walk(a).Ok? && Walk(a + b) == Prepend(Walk(a).tlvs, Walk(b))
    decreases |a|
  {
    if a == [] {
      assert a + b == b;
      assert forall o: Outcome :: o.Ok? ==> [] + o.tlvs == o.tlvs;
    } else {
      var t := Decode(TypeOf(HeaderType(a)), a[2..Extent(a)]);
      var tail := a[Extent(a)..];
      HeadUnaffected(a, b);
      WalkComposes(tail, b);
      hide Walk, ParseValue, MeetsMinimum, TypeOf;
      PrependTwice([t.value], Walk(tail).tlvs, Walk(b));
    }
  }

  // ---------------------------------------------------------------- round trip

  /** One TLV as section 8.4 of IEEE 802.1AB-2009 lays it out: seven bits of type, nine of length. */
  datatype Item = Item(kind: u8, value: seq<u8>)

  predicate Encodable(it: Item) {
    it.kind < 128 && |it.value| < 512
  }

  function Encode(it: Item): (r: seq<u8>)
    requires Encodable(it)
    ensures |r| == 2 + |it.value|
  {
    [it.kind * 2 + |it.value| / 256, |it.value| % 256] + it.value
  }

  ghost predicate AllEncodable(items: seq<Item>) {
    forall i :: 0 <= i < |items| ==> Encodable(items[i])
  }

  function EncodeAll(items: seq<Item>): seq<u8>
    requires AllEncodable(items)
  {
    if items == [] then [] else Encode(items[0]) + EncodeAll(items[1..])
  }

  /** The type survives; the length does when its ninth bit is clear, and comes out 256 too large when not. */
  lemma HeaderRoundTrip(it: Item, rest: seq<u8>)
    requires Encodable(it)
    ensures var b := Encode(it) + rest;
      && HeaderType(b) == it.kind
      && HeaderLength(b) == (if |it.value| < 256 then |it.value| else |it.value| + 256)
      && b[2..2 + |it.value|] == it.value
      && b[2 + |it.value|..] == rest
  {
    assert (Encode(it) + rest)[..2] == Encode(it)[..2];
  }

  predicate Readable(it: Item) {
    Encodable(it) && |it.value| < 256 && MeetsMinimum(TypeOf(it.kind), it.value)
  }

  ghost predicate AllReadable(items: seq<Item>) {
    forall i :: 0 <= i < |items| ==> Readable(items[i])
  }

  function DecodeItem(it: Item): Tlv
    requires Readable(it)
  {
    DecodesAlone(TypeOf(it.kind), it.value);
    Decode(TypeOf(it.kind), it.value).value
  }

  function DecodeAll(items: seq<Item>): (r: seq<Tlv>)
    requires AllReadable(items)
    ensures |r| == |items| && forall i :: 0 <= i < |items| ==> r[i] == DecodeItem(items[i])
  {
    seq(|items|, i requires 0 <= i < |items| => DecodeItem(items[i]))
  }

  lemma EncodedTiled(it: Item, rest: seq<u8>)
    requires Readable(it) && ExactlyTiled(rest)
    ensures var b := Encode(it) + rest;
      ExactlyTiled(b) && Walk(b) == Prepend([DecodeItem(it)], Walk(rest))
  {
    var b := Encode(it) + rest;
    HeaderRoundTrip(it, rest);
    hide ParseValue, TypeOf, MeetsMinimum, Encode, HeaderType, HeaderLength, Decode, ExactlyTiled;
    HeadUnaffected(b, []);
    TiledCons(b);
  }

  lemma TiledCons(b: seq<u8>)
    requires |b| >= 2 && Extent(b) <= |b| && MeetsMinimum(TypeOf(HeaderType(b)), b[2..Extent(b)])
    requires ExactlyTiled(b[Extent(b)..])
    ensures ExactlyTiled(b)
  {
  }

  lemma ReadableEncodes(items: seq<Item>)
    requires AllReadable(items)
    ensures AllEncodable(items)
    ensures items != [] ==> Readable(items[0]) && AllReadable(items[1..])
  {
  }

  lemma ListCons(items: seq<Item>)
    requires AllReadable(items) && items != []
    ensures AllEncodable(items) && EncodeAll(items) == Encode(items[0]) + EncodeAll(items[1..])
    ensures DecodeAll(items) == [DecodeItem(items[0])] + DecodeAll(items[1..])
  {
    ReadableEncodes(items);
    DecodeCons(items);
    hide Encode, DecodeItem, DecodeAll, Readable, AllReadable;
  }

  lemma DecodeCons(items: seq<Item>)
    requires AllReadable(items) && items != []
    ensures Readable(items[0]) && AllReadable(items[1..])
    ensures DecodeAll(items) == [DecodeItem(items[0])] + DecodeAll(items[1..])
  {
    hide DecodeItem, DecodeAll, Readable;
    assert forall i :: 0 < i < |items| ==> DecodeAll(items)[i] == DecodeAll(items[1..])[i - 1];
  }

  lemma NothingEncoded()
    ensures EncodeAll([]) == [] && ExactlyTiled([]) && Walk([]) == Ok([])
  {
  }

  lemma {:induction false} EncodedWalks(items: seq<Item>)
    requires AllReadable(items)
    ensures AllEncodable(items)
    ensures ExactlyTiled(EncodeAll(items)) && Walk(EncodeAll(items)) == Ok(DecodeAll(items))
  {
    ReadableEncodes(items);
    hide AllReadable, AllEncodable, EncodeAll, Encode, DecodeItem, DecodeAll, Walk, ExactlyTiled, Readable;
    if items == [] {
      NothingEncoded();
    } else {
      var rest := items[1..];
      EncodedWalks(rest);
      ListCons(items);
      EncodedTiled(items[0], EncodeAll(rest));
    }
  }

  /** Parsing an encoded list gives one TLV per item, in order, each decoded from its own bytes; what
      follows the list is walked on its own. */
  lemma EncodeRoundTrip(items: seq<Item>, rest: seq<u8>)
    requires AllReadable(items)
    ensures AllEncodable(items) && Walk(EncodeAll(items) + rest) == Prepend(DecodeAll(items), Walk(rest))
  {
    hide *;
    EncodedWalks(items);
    WalkComposes(EncodeAll(items), rest);
  }

  // ---------------------------------------------------------------- the ninth length bit

  /** Where the encoder put the headers. */
  function ItemCuts(items: seq<Item>): (r: seq<nat>)
    ensures |r| == |items| + 1 && r[0] == 0
  {
    if items == [] then [0] else [0] + Shift(ItemCuts(items[1..]), 2 + |items[0].value|)
  }

  lemma CutsOfEncoded(it: Item, rest: seq<u8>)
    requires Encodable(it)
    ensures var b, n := Encode(it) + rest, |it.value|;
      && (n < 256 ==> Cuts(b) == [0] + Shift(Cuts(rest), 2 + n))
      && (n >= 256 ==> |Cuts(b)| == 1 || Cuts(b)[1] == 2 + n + 256)
  {
    HeaderRoundTrip(it, rest);
    hide HeaderLength, Encode, HeaderType;
  }

  lemma ShiftInjective(a: seq<nat>, b: seq<nat>, n: nat)
    ensures Shift(a, n) == Shift(b, n) <==> a == b
  {
    if Shift(a, n) == Shift(b, n) {
      assert forall i :: 0 <= i < |a| ==> a[i] + n == Shift(a, n)[i];
      assert forall i :: 0 <= i < |b| ==> b[i] + n == Shift(b, n)[i];
    }
  }

  ghost predicate AllShort(items: seq<Item>) {
    forall i :: 0 <= i < |items| ==> |items[i].value| < 256
  }

  lemma ShortCons(items: seq<Item>)
    requires items != []
    ensures AllShort(items) <==> |items[0].value| < 256 && AllShort(items[1..])
  {
    assert items == [items[0]] + items[1..];
  }

  lemma SameHead(a: seq<nat>, b: seq<nat>)
    ensures [0] + a == [0] + b <==> a == b
  {
    assert ([0] + a)[1..] == a && ([0] + b)[1..] == b;
  }

  /** The walk finds the encoder's headers exactly when no value needs the ninth length bit. */
  lemma {:induction false} HeadersFoundExactly(items: seq<Item>)
    requires AllEncodable(items)
    ensures Cuts(EncodeAll(items)) == ItemCuts(items) <==> AllShort(items)
  {
    if items != [] {
      var it, rest := items[0], items[1..];
      HeadersFoundExactly(rest);
      CutsOfEncoded(it, EncodeAll(rest));
      ShortCons(items);
      hide Cuts, Shift, Encode, AllShort;
      if |it.value| < 256 {
        var a, b, n := Cuts(EncodeAll(rest)), ItemCuts(rest), 2 + |it.value|;
        ShiftInjective(a, b, n);
        SameHead(Shift(a, n), Shift(b, n));
      } else {
        assert ItemCuts(items)[1] == 2 + |it.value|;
      }
    }
  }

  /** A lone TLV that meets its minimum is read back exactly when its value is shorter than 256 bytes. */
  lemma SingleRoundTripExactly(it: Item)
    requires Encodable(it) && MeetsMinimum(TypeOf(it.kind), it.value)
    ensures Walk(Encode(it)) == (if |it.value| < 256 then Ok([DecodeItem(it)]) else WrongLength)
  {
    HeaderRoundTrip(it, []);
    assert Encode(it) + [] == Encode(it);
    if |it.value| < 256 {
      EncodedTiled(it, []);
    }
    hide ParseValue, TypeOf, MeetsMinimum, Encode, DecodeItem;
  }

  // ---------------------------------------------------------------- padding and frames

  function Ends(n: nat): (r: seq<Tlv>)
    ensures |r| == n
  {
    seq(n, i => EndOfPdu)
  }

  /** Zero bytes read as empty End Of LLDPDU entries, two bytes each. */
  lemma {:induction false} ZerosWalk(m: nat)
    ensures Walk(Zeros(m)) == Ok(Ends(m / 2))
  {
    if m >= 2 {
      var b := Zeros(m);
      assert Extent(b) == 2;
      assert b[2..] == Zeros(m - 2);
      ZerosWalk(m - 2);
      assert [EndOfPdu] + Ends((m - 2) / 2) == Ends(m / 2);
    }
  }

  /** Padding a tiled payload with zeros adds exactly half as many End entries and changes nothing before. */
  lemma PaddingHarmless(a: seq<u8>, m: nat)
    requires ExactlyTiled(a)
    ensures Walk(a).Ok? && Walk(a + Zeros(m)) == Ok(Walk(a).tlvs + Ends(m / 2))
  {
    hide Walk, ExactlyTiled, Ends;
    WalkComposes(a, Zeros(m));
    ZerosWalk(m);
  }

  const ETHERTYPE_LLDP: u16 := 0x88cc

  predicate IsLldp(frame: seq<u8>) {
    |frame| >= 14 && Word(frame, 12) == ETHERTYPE_LLDP
  }

  /** `Lldpdu::parser`. */
  method Parser(frame: seq<u8>) returns (r: Outcome)
    ensures r.NotLldp? <==> |frame| < 14 || frame[12] != 0x88 || frame[13] != 0xcc
    ensures !r.NotLldp? ==> r == Walk(frame[14..])
  {
    if |frame| >= 14 {
      WalkExactly(frame[14..]);
    }
    hide Walk, Cuts, OutOfRange;
    if IsLldp(frame) {
      r := FromBytes(frame[14..]);
    } else {
      r := NotLldp;
    }
  }

  /** A padded Ethernet frame around an encoded list is recognised and read back. */
  lemma FrameReadBack(dst: seq<u8>, src: seq<u8>, items: seq<Item>, m: nat)
    requires |dst| == 6 && |src| == 6 && AllReadable(items)
    ensures AllEncodable(items)
    ensures var frame := dst + src + Be16(ETHERTYPE_LLDP) + (EncodeAll(items) + Zeros(m));
      IsLldp(frame) && Walk(frame[14..]) == Ok(DecodeAll(items) + Ends(m / 2))
  {
    EncodeRoundTrip(items, Zeros(m));
    ZerosWalk(m);
    hide Walk, DecodeAll, AllReadable, EncodeAll, Ends;
    var body := EncodeAll(items) + Zeros(m);
    var frame := dst + src + Be16(ETHERTYPE_LLDP) + body;
    assert frame[14..] == body;
    assert frame[12] == Be16(ETHERTYPE_LLDP)[0] && frame[13] == Be16(ETHERTYPE_LLDP)[1];
  }

  // ---------------------------------------------------------------- meaning

  function ItemOf(f: Field): Item
    requires ValidField(f)
  {
    Item(FieldType(f), FieldBytes(f))
  }

  function ItemsOf(fs: seq<Field>): (r: seq<Item>)
    requires forall i :: 0 <= i < |fs| ==> ValidField(fs[i])
    ensures |r| == |fs| && forall i :: 0 <= i < |fs| ==> r[i] == ItemOf(fs[i])
  {
    seq(|fs|, i requires 0 <= i < |fs| => ItemOf(fs[i]))
  }

  function Meanings(fs: seq<Field>): (r: seq<Tlv>)
    requires forall i :: 0 <= i < |fs| ==> ValidField(fs[i])
    ensures |r| == |fs| && forall i :: 0 <= i < |fs| ==> r[i] == FieldTlv(fs[i])
  {
    seq(|fs|, i requires 0 <= i < |fs| => FieldTlv(fs[i]))
  }

  predicate Garbled(f: Field) {
    f.ChassisMacField? && f.mac != [4, 4, 4, 4, 4, 4]
  }

  lemma FieldReadable(f: Field)
    requires ValidField(f)
    ensures Readable(ItemOf(f)) && (DecodeItem(ItemOf(f)) == FieldTlv(f) <==> !Garbled(f))
  {
    FieldReadBackExactly(f);
    FieldShort(f);
    hide FieldTlv, MeetsMinimum, TypeOf, FieldType, FieldBytes, ValidField;
  }

  lemma FieldShort(f: Field)
    requires ValidField(f)
    ensures |FieldBytes(f)| < 256 && FieldType(f) < 128
  {
  }

  lemma SameSuffix(a: seq<Tlv>, b: seq<Tlv>, e: seq<Tlv>)
    requires |a| == |b|
    ensures a + e == b + e <==> a == b
  {
    assert (a + e)[..|a|] == a && (b + e)[..|b|] == b;
  }

  /** A frame with any list of fields, padded, is read back as what the fields mean, all of them and in
      order, exactly when none is a chassis MAC address other than 04:04:04:04:04:04. */
  lemma FieldsReadBackExactly(dst: seq<u8>, src: seq<u8>, fs: seq<Field>, m: nat)
    requires |dst| == 6 && |src| == 6 && forall i :: 0 <= i < |fs| ==> ValidField(fs[i])
    ensures AllEncodable(ItemsOf(fs))
    ensures var frame := dst + src + Be16(ETHERTYPE_LLDP) + (EncodeAll(ItemsOf(fs)) + Zeros(m));
      && IsLldp(frame)
      && (Walk(frame[14..]) == Ok(Meanings(fs) + Ends(m / 2)) <==> forall i :: 0 <= i < |fs| ==> !Garbled(fs[i]))
  {
    var items := ItemsOf(fs);
    forall i | 0 <= i < |fs|
      ensures Readable(items[i]) && (DecodeItem(items[i]) == FieldTlv(fs[i]) <==> !Garbled(fs[i])) {
      FieldReadable(fs[i]);
    }
    FrameReadBack(dst, src, items, m);
    hide Walk, EncodeAll, FieldTlv, DecodeItem, Readable, Garbled, ValidField, IsLldp, Ends, AllEncodable;
    SameSuffix(Meanings(fs), DecodeAll(items), Ends(m / 2));
    assert Meanings(fs) == DecodeAll(items) <==> forall i :: 0 <= i < |fs| ==> !Garbled(fs[i]) by {
      if Meanings(fs) == DecodeAll(items) {
        forall i | 0 <= i < |fs| ensures !Garbled(fs[i]) {
          assert Meanings(fs)[i] == DecodeAll(items)[i];
        }
      }
    }
  }
}
