/** The VLAN vectors of the topology map: `push`, `sort`, `dedup` and what they keep. */
module VlanList {
  import opened Bytes

  ghost predicate Sorted(s: seq<u16>) {
    forall i, j :: 0 <= i < j < |s| ==> s[i] <= s[j]
  }

  ghost predicate Ascending(s: seq<u16>) {
    forall i, j :: 0 <= i < j < |s| ==> s[i] < s[j]
  }

  function Insert(x: u16, s: seq<u16>): seq<u16> {
    if s == [] || x <= s[0] then [x] + s else [s[0]] + Insert(x, s[1..])
  }

  lemma InsertStep(x: u16, s: seq<u16>)
    ensures s == [] || x <= s[0] ==> Insert(x, s) == [x] + s
    ensures s != [] && x > s[0] ==> Insert(x, s) == [s[0]] + Insert(x, s[1..])
  {
  }

  lemma {:induction false} InsertContents(x: u16, s: seq<u16>)
    ensures multiset(Insert(x, s)) == multiset(s) + multiset{x}
  {
    hide Insert;
    InsertStep(x, s);
    if s != [] && x > s[0] {
      InsertContents(x, s[1..]);
      assert s == [s[0]] + s[1..];
    }
  }

  lemma SortedCons(x: u16, s: seq<u16>)
    requires Sorted(s) && forall y :: y in s ==> x <= y
    ensures Sorted([x] + s)
  {
    var t := [x] + s;
    forall i, j | 0 <= i < j < |t| ensures t[i] <= t[j] {
      assert t[j] == s[j - 1] && s[j - 1] in s;
    }
  }

  lemma SortedSplits(s: seq<u16>)
    requires Sorted(s) && s != []
    ensures Sorted(s[1..]) && forall y :: y in s ==> s[0] <= y
  {
  }

  lemma {:induction false} InsertSorted(x: u16, s: seq<u16>)
    requires Sorted(s)
    ensures Sorted(Insert(x, s))
  {
    InsertStep(x, s);
    hide Insert, Sorted;
    if s == [] {
      SortedCons(x, s);
    } else {
      SortedSplits(s);
      if x <= s[0] {
        SortedCons(x, s);
      } else {
        InsertSorted(x, s[1..]);
        InsertMembers(x, s[1..]);
        forall y | y in Insert(x, s[1..]) ensures s[0] <= y {
          assert y in s[1..] ==> y in s;
        }
        SortedCons(s[0], Insert(x, s[1..]));
      }
    }
  }

  lemma InsertMembers(x: u16, s: seq<u16>)
    ensures forall y :: y in Insert(x, s) ==> y == x || y in s
  {
    hide Insert;
    InsertContents(x, s);
    forall y | y in Insert(x, s) ensures y == x || y in s {
      assert y in multiset(Insert(x, s));
    }
  }

  /** `slice::sort`: a sorted permutation. */
  function Sort(s: seq<u16>): (r: seq<u16>)
    ensures Sorted(r) && multiset(r) == multiset(s)
  {
    if s == [] then [] else
      assert s == [s[0]] + s[1..];
      InsertContents(s[0], Sort(s[1..]));
      InsertSorted(s[0], Sort(s[1..]));
      Insert(s[0], Sort(s[1..]))
  }

  /** `Vec::dedup`: every run of equal neighbours becomes one element. */
  function Dedup(s: seq<u16>): seq<u16> {
    if |s| <= 1 then s
    else if s[0] == s[1] then Dedup(s[1..])
    else [s[0]] + Dedup(s[1..])
  }

  lemma DedupStep(s: seq<u16>)
    ensures |s| <= 1 ==> Dedup(s) == s
    ensures |s| > 1 ==> Dedup(s) == if s[0] == s[1] then Dedup(s[1..]) else [s[0]] + Dedup(s[1..])
  {
  }

  lemma AscendingCons(x: u16, s: seq<u16>)
    requires Ascending(s) && forall y :: y in s ==> x < y
    ensures Ascending([x] + s)
  {
    var t := [x] + s;
    forall i, j | 0 <= i < j < |t| ensures t[i] < t[j] {
      assert t[j] == s[j - 1] && s[j - 1] in s;
    }
  }

  lemma {:induction false} DedupSorted(s: seq<u16>)
    requires Sorted(s)
    ensures Ascending(Dedup(s))
    ensures forall x :: x in Dedup(s) <==> x in s
    ensures s != [] ==> Dedup(s) != [] && Dedup(s)[0] == s[0]
  {
    DedupStep(s);
    if |s| > 1 {
      SortedSplits(s);
      SortedSplits(s[1..]);
      hide Dedup, Sorted, Ascending;
      DedupSorted(s[1..]);
      assert s == [s[0]] + s[1..] && s[1..][0] == s[1];
      if s[0] != s[1] {
        assert s[1] in s;
        AscendingCons(s[0], Dedup(s[1..]));
      }
    }
  }

  /** The `and_modify` closure of the topology task. */
  function Push(s: seq<u16>, v: u16): seq<u16> {
    Dedup(Sort(s + [v]))
  }

  /** Whatever the vector held, it ends up strictly ascending with exactly one more member. */
  lemma PushAddsMember(s: seq<u16>, v: u16)
    ensures Ascending(Push(s, v)) && Push(s, v) != []
    ensures forall x :: x in Push(s, v) <==> x in s || x == v
  {
    var t := Sort(s + [v]);
    DedupSorted(t);
    assert forall x :: x in t <==> x in multiset(t);
    assert forall x :: x in s + [v] <==> x in multiset(s + [v]);
    assert v in s + [v];
  }

  /** A strictly ascending vector is determined by its members. */
  lemma {:induction false} AscendingUnique(a: seq<u16>, b: seq<u16>)
    requires Ascending(a) && Ascending(b)
    requires forall x :: x in a <==> x in b
    ensures a == b
  {
    assert a != [] ==> a[0] in a && a[0] in b;
    assert b != [] ==> b[0] in b && b[0] in a;
    if a != [] {
      assert a[0] == b[0];
      assert a == [a[0]] + a[1..] && b == [b[0]] + b[1..];
      forall x ensures x in a[1..] <==> x in b[1..] {
        assert x in a[1..] <==> x in a && x != a[0];
        assert x in b[1..] <==> x in b && x != b[0];
      }
      AscendingUnique(a[1..], b[1..]);
    }
  }
}
