/** How VLAN lists are printed and how VLAN ranges are read back. */
module VlanText {
  import opened Bytes
  import opened VlanList

  /** An inclusive range; the tool's `(u16, u16)` pairs. */
  datatype Range = Range(lo: u16, hi: u16)

  // ---------------------------------------------------------------- numbers

  predicate IsDigit(c: char) {
    '0' <= c <= '9'
  }

  function Digit(d: nat): (c: char)
    requires d < 10
    ensures IsDigit(c)
  {
    '0' + d as char
  }

  /** `format!("{}", n)`. */
  function Decimal(n: nat): (s: string)
    ensures s != [] && forall c :: c in s ==> IsDigit(c)
  {
    if n < 10 then [Digit(n)] else Decimal(n / 10) + [Digit(n % 10)]
  }

  function Value(s: string): nat
    requires forall c :: c in s ==> IsDigit(c)
  {
    if s == [] then 0
    else
      assert IsDigit(s[|s| - 1]);
      Value(s[..|s| - 1]) * 10 + (s[|s| - 1] as int - '0' as int)
  }

  /** `u16::from_str`: an optional plus sign, then at least one digit, at most 65535. */
  function ParseU16(s: string): Option<u16> {
    var digits := if |s| > 0 && s[0] == '+' then s[1..] else s;
    if digits == [] || !(forall c :: c in digits ==> IsDigit(c)) then None
    else if Value(digits) < 0x1_0000 then Some(Value(digits))
    else None
  }

  lemma {:induction false} DecimalValue(n: nat)
    ensures Value(Decimal(n)) == n
  {
    if n >= 10 {
      var head := Decimal(n / 10);
      DecimalValue(n / 10);
      assert Decimal(n)[..|Decimal(n)| - 1] == head;
    }
  }

  lemma ParseDecimal(n: u16)
    ensures ParseU16(Decimal(n)) == Some(n)
  {
    DecimalValue(n);
    assert IsDigit(Decimal(n)[0]);
  }

  /** `n` divided by ten `i` times. */
  function Tenths(n: nat, i: nat): nat {
    if i == 0 then n else Tenths(n / 10, i - 1)
  }

  /** Place `i` from the right holds the digit of that weight, and no place is wasted on a leading zero. */
  lemma {:induction false} DecimalPlaces(n: nat, i: nat)
    requires i < |Decimal(n)|
    ensures var s := Decimal(n);
      && s[|s| - 1 - i] as int == '0' as int + Tenths(n, i) % 10
      && Tenths(n, |s|) == 0 && (|s| > 1 ==> Tenths(n, |s| - 1) > 0)
  {
    if n < 10 {
      assert n / 10 == 0 && Tenths(n / 10, 0) == 0;
    } else {
      var s, t := Decimal(n), Decimal(n / 10);
      assert s == t + [Digit(n % 10)] && |t| >= 1;
      DecimalPlaces(n / 10, if i == 0 then 0 else i - 1);
      hide Decimal;
      if |t| == 1 {
        assert Tenths(n, 1) == Tenths(n / 10, 0) == n / 10;
      }
    }
  }

  /** A numeral as the reader takes it: an optional plus sign, any number of zeros, then the plain decimal. */
  function Numeral(plus: bool, zeros: nat, n: nat): string {
    (if plus then "+" else "") + (seq(zeros, i => '0') + Decimal(n))
  }

  lemma {:induction false} DigitsOf(s: string) returns (zeros: nat)
    requires s != [] && forall c :: c in s ==> IsDigit(c)
    ensures s == seq(zeros, i => '0') + Decimal(Value(s))
  {
    var init, last := s[..|s| - 1], s[|s| - 1];
    assert IsDigit(last) && forall c :: c in init ==> c in s;
    var d := last as int - '0' as int;
    assert Value(s) == Value(init) * 10 + d && Digit(d) == last;
    assert s == init + [last];
    if init == [] {
      zeros := 0;
      assert Decimal(d) == [last];
    } else {
      zeros := DigitsOf(init);
      var v := Value(init);
      if v == 0 {
        assert Decimal(0) == [Digit(0)] && Decimal(d) == [Digit(d)];
        zeros := zeros + 1;
      } else {
        assert (v * 10 + d) / 10 == v && (v * 10 + d) % 10 == d;
        assert Decimal(v * 10 + d) == Decimal(v) + [Digit(d)];
      }
    }
  }

  lemma {:induction false} ZerosValue(zeros: nat, s: string)
    requires forall c :: c in s ==> IsDigit(c)
    ensures var t := seq(zeros, i => '0') + s; (forall c :: c in t ==> IsDigit(c)) && Value(t) == Value(s)
  {
    var t := seq(zeros, i => '0') + s;
    if s == [] {
      if zeros > 0 {
        assert t[..|t| - 1] == seq(zeros - 1, i => '0') + [];
        ZerosValue(zeros - 1, []);
      }
    } else {
      var init := s[..|s| - 1];
      assert t[..|t| - 1] == seq(zeros, i => '0') + init && t[|t| - 1] == s[|s| - 1];
      ZerosValue(zeros, init);
    }
  }

  /** The number reader takes exactly the decimal numerals of 16-bit numbers, a plus sign and leading zeros
      allowed. */
  lemma ParseU16Exactly(s: string, n: u16)
    ensures ParseU16(s) == Some(n) <==> exists plus: bool, zeros: nat :: s == Numeral(plus, zeros, n)
  {
    if ParseU16(s) == Some(n) {
      var plus := s[0] == '+';
      var digits := if plus then s[1..] else s;
      var zeros := DigitsOf(digits);
      assert s == (if plus then "+" else "") + digits;
      assert s == Numeral(plus, zeros, n);
    }
    if plus: bool, zeros: nat :| s == Numeral(plus, zeros, n) {
      NumeralReads(plus, zeros, n);
    }
  }

  lemma NumeralReads(plus: bool, zeros: nat, n: u16)
    ensures ParseU16(Numeral(plus, zeros, n)) == Some(n)
  {
    var digits := seq(zeros, i => '0') + Decimal(n);
    ZerosValue(zeros, Decimal(n));
    DecimalValue(n);
    hide Decimal, Value;
    assert IsDigit(digits[0]);
    if plus {
      assert Numeral(plus, zeros, n)[1..] == digits;
    } else {
      assert Numeral(plus, zeros, n) == digits;
    }
  }

  // ---------------------------------------------------------------- ranges

  /** The position of the first `c`, as used by `str::split_once`. */
  function Find(s: string, c: char): (r: Option<nat>)
    ensures r.Some? ==> r.value < |s| && s[r.value] == c && c !in s[..r.value]
    ensures r.None? ==> c !in s
  {
    if s == [] then None
    else if s[0] == c then Some(0)
    else match Find(s[1..], c)
      case None => None
      case Some(i) =>
        assert s[..i + 1] == [s[0]] + s[1..][..i];
        Some(i + 1)
  }

  lemma FindUnique(s: string, c: char, i: nat)
    requires i < |s| && s[i] == c && c !in s[..i]
    ensures Find(s, c) == Some(i)
  {
    assert s[i] in s;
    var f := Find(s, c).value;
    assert forall k :: 0 <= k < i ==> s[k] in s[..i];
    assert forall k :: 0 <= k < f ==> s[k] in s[..f];
  }

  /** The command-line reader of one `start-end` argument. */
  function VlanRange(s: string): Option<Range> {
    match Find(s, '-')
    case None => None
    case Some(i) =>
      match (ParseU16(s[..i]), ParseU16(s[i + 1..]))
      case (Some(a), Some(b)) => if b < a then None else Some(Range(a, b))
      case _ => None
  }

  /** One printed piece: a lone number, or `start-end`. */
  function Piece(r: Range): string {
    if r.lo == r.hi then Decimal(r.lo) else Decimal(r.lo) + "-" + Decimal(r.hi)
  }

  function Join(rs: seq<Range>): string {
    if rs == [] then ""
    else if |rs| == 1 then Piece(rs[0])
    else Join(rs[..|rs| - 1]) + "," + Piece(rs[|rs| - 1])
  }

  /** The inclusive loop `start..=end`. */
  function Span(r: Range): (s: seq<u16>)
    ensures |s| == if r.lo <= r.hi then r.hi - r.lo + 1 else 0
    ensures forall i :: 0 <= i < |s| ==> s[i] == r.lo + i
  {
    seq(if r.lo <= r.hi then r.hi - r.lo + 1 else 0,
        i requires 0 <= i < if r.lo <= r.hi then r.hi - r.lo + 1 else 0 => r.lo + i)
  }

  function Expand(rs: seq<Range>): seq<u16> {
    if rs == [] then [] else Span(rs[0]) + Expand(rs[1..])
  }

  // ---------------------------------------------------------------- maximal runs

  /** Over the integers, so that 65535 is followed by nothing. */
  predicate Follows(a: int, b: int) {
    b == a + 1
  }

  /** `v[lo..hi]` climbs by one from element to element. */
  ghost predicate Run(v: seq<u16>, lo: nat, hi: nat) {
    lo < hi <= |v| && forall i {:trigger v[i]} :: lo <= i < hi ==> v[i] - i == v[lo] - lo
  }

  /** How many leading elements follow each other by one. */
  function RunLength(v: seq<u16>): (n: nat)
    requires v != []
    ensures 1 <= n <= |v|
    ensures Run(v, 0, n)
    ensures n < |v| ==> !Follows(v[n - 1], v[n])
  {
    if |v| == 1 || !Follows(v[0], v[1]) then 1 else
      var m := RunLength(v[1..]);
      assert Run(v, 0, m + 1) by {
        assert forall i :: 1 <= i < m + 1 ==> v[i] == v[1..][i - 1];
      }
      1 + m
  }

  function Runs(v: seq<u16>): seq<Range> {
    if v == [] then [] else
      var n := RunLength(v);
      [Range(v[0], v[n - 1])] + Runs(v[n..])
  }

  lemma RunsStep(v: seq<u16>)
    requires v != []
    ensures var n := RunLength(v);
      v[0] <= v[n - 1] && Runs(v) == [Range(v[0], v[n - 1])] + Runs(v[n..])
  {
    assert v[RunLength(v) - 1] >= v[0];
  }

  datatype Shown = Text(text: string) | Overflow

  /** `end + 1` leaves the 16-bit range exactly when 65535 is followed by something. */
  ghost predicate Overflows(v: seq<u16>) {
    exists i :: 0 <= i < |v| - 1 && v[i] == 0xffff
  }

  lemma RunLengthHere(v: seq<u16>, start: nat, i: nat)
    requires Run(v, start, i + 1)
    requires i + 1 < |v| ==> !Follows(v[i], v[i + 1])
    ensures RunLength(v[start..]) == i + 1 - start
  {
    hide RunLength;
    var t, n := v[start..], RunLength(v[start..]);
    assert forall k {:trigger t[k]} :: 0 <= k < |t| ==> t[k] == v[start + k];
    assert forall k {:trigger t[k]} :: 0 <= k < i - start ==> t[k] == v[start] + k && t[k + 1] == v[start] + k + 1;
    assert n >= i + 1 - start;
  }

  lemma RunEndsHere(v: seq<u16>, start: nat, i: nat)
    requires Run(v, start, i + 1)
    requires i + 1 < |v| ==> !Follows(v[i], v[i + 1])
    ensures Runs(v[start..]) == [Range(v[start], v[i])] + Runs(v[i + 1..])
  {
    RunLengthHere(v, start, i);
    hide Run, Runs, RunLength;
    RunsStep(v[start..]);
    assert v[start..][i + 1 - start..] == v[i + 1..];
  }

  lemma JoinSnoc(rs: seq<Range>, r: Range)
    ensures Join(rs + [r]) == (if Join(rs) == "" then "" else Join(rs) + ",") + Piece(r)
    ensures Join(rs) == "" <==> rs == []
  {
    assert (rs + [r])[..|rs|] == rs;
  }

  /** The printer before position `i`: `done` is printed, a run begun at `start` is open. */
  ghost predicate Printed(v: seq<u16>, start: nat, i: nat, done: seq<Range>) {
    && start <= i <= |v|
    && (start == i || (i < |v| && Run(v, start, i + 1)))
    && Runs(v) == done + Runs(v[start..])
  }

  lemma PrintedCloses(v: seq<u16>, start: nat, i: nat, done: seq<Range>)
    requires i < |v| && Printed(v, start, i, done)
    requires i + 1 < |v| ==> !Follows(v[i], v[i + 1])
    ensures Printed(v, i + 1, i + 1, done + [Range(v[start], v[i])])
  {
    hide Runs;
    var r := Range(v[start], v[i]);
    RunEndsHere(v, start, i);
    assert (done + [r]) + Runs(v[i + 1..]) == done + ([r] + Runs(v[i + 1..]));
  }

  lemma PrintedExtends(v: seq<u16>, start: nat, i: nat, done: seq<Range>)
    requires i + 1 < |v| && Printed(v, start, i, done)
    requires Follows(v[i], v[i + 1])
    ensures Printed(v, start, i + 1, done)
  {
  }

  lemma PrintedEnds(v: seq<u16>, start: nat, done: seq<Range>)
    requires Printed(v, start, |v|, done)
    ensures done == Runs(v)
  {
    assert v[start..] == [];
  }

  /** The body of the printer's `if range`. */
  method AppendPiece(text: string, start: u16, end: u16) returns (r: string)
    ensures r == (if text == "" then "" else text + ",") + Piece(Range(start, end))
  {
    r := text;
    if r != "" {
      r := r + ",";
    }
    if start == end {
      r := r + Decimal(start);
    } else {
      r := r + (Decimal(start) + "-" + Decimal(end));
    }
  }

  /** `show_vlan`. */
  method ShowVlan(vlans: seq<u16>) returns (r: Shown)
    ensures r.Overflow? <==> Overflows(vlans)
    ensures r.Text? ==> r.text == Join(Runs(vlans))
  {
    hide Join, Runs, Piece, Run;
    if vlans == [] {
      RunsOrdered(vlans);
      JoinSnoc(Runs(vlans), Range(0, 0));
      return Text("");
    }
    JoinSnoc([], Range(0, 0));
    var start := 0;
    var text := "";
    ghost var done: seq<Range> := [];
    assert vlans[0..] == vlans;
    for i := 0 to |vlans|
      invariant Printed(vlans, start, i, done)
      invariant text == Join(done)
      invariant forall j :: 0 <= j < i && j < |vlans| - 1 ==> vlans[j] != 0xffff
    {
      var boundary := true;
      if i + 1 < |vlans| {
        if vlans[i] == 0xffff {
          return Overflow;
        }
        boundary := !Follows(vlans[i], vlans[i + 1]);
      }
      if boundary {
        PrintedCloses(vlans, start, i, done);
        JoinSnoc(done, Range(vlans[start], vlans[i]));
        text := AppendPiece(text, vlans[start], vlans[i]);
        done := done + [Range(vlans[start], vlans[i])];
        start := i + 1;
      } else {
        PrintedExtends(vlans, start, i, done);
      }
    }
    PrintedEnds(vlans, start, done);
    return Text(text);
  }

  // ---------------------------------------------------------------- reading back

  /** `text` cut at its commas. */
  function Split(text: string): (r: seq<string>)
    ensures r != []
  {
    if text == "" then [""] else
      var before := Split(text[..|text| - 1]);
      var c := text[|text| - 1];
      if c == ',' then before + [""]
      else before[..|before| - 1] + [before[|before| - 1] + [c]]
  }

  function ReadPiece(p: string): Option<Range> {
    if '-' in p then VlanRange(p)
    else match ParseU16(p)
      case None => None
      case Some(n) => Some(Range(n, n))
  }

  function ReadPieces(ps: seq<string>): Option<seq<Range>> {
    if ps == [] then Some([]) else
      match (ReadPieces(ps[..|ps| - 1]), ReadPiece(ps[|ps| - 1]))
      case (Some(rs), Some(r)) => Some(rs + [r])
      case _ => None
  }

  /** Reads a printed list: pieces with a dash through the range reader, others as numbers. */
  function ReadVlans(text: string): Option<seq<u16>> {
    if text == "" then Some([]) else
      match ReadPieces(Split(text))
      case None => None
      case Some(rs) => Some(Expand(rs))
  }

  lemma SplitLast(t: string)
    requires t != ""
    ensures var before, c := Split(t[..|t| - 1]), t[|t| - 1];
      Split(t) == if c == ',' then before + [""] else before[..|before| - 1] + [before[|before| - 1] + [c]]
  {
  }

  lemma {:induction false} SplitSnoc(a: string, b: string)
    requires ',' !in b
    ensures Split(a + "," + b) == Split(a) + [b]
  {
    hide Split;
    var t := a + "," + b;
    SplitLast(t);
    if b == "" {
      assert t[..|t| - 1] == a;
    } else {
      var init, c := b[..|b| - 1], b[|b| - 1];
      assert c in b && t[|t| - 1] == c && t[..|t| - 1] == a + "," + init;
      SplitSnoc(a, init);
      var before := Split(a) + [init];
      assert before[..|before| - 1] == Split(a) && before[|before| - 1] == init;
      assert b == init + [c];
    }
  }

  lemma {:induction false} SplitWhole(b: string)
    requires ',' !in b
    ensures Split(b) == [b]
  {
    if b != "" {
      SplitLast(b);
      hide Split;
      var init, c := b[..|b| - 1], b[|b| - 1];
      assert c in b;
      SplitWhole(init);
      assert [init][..0] == [] && b == init + [c];
    }
  }

  lemma DecimalClean(n: nat)
    ensures '-' !in Decimal(n) && ',' !in Decimal(n)
  {
    assert !IsDigit('-') && !IsDigit(',');
  }

  /** Two numbers joined by a dash are a range exactly when the second is not smaller; a lone number is none. */
  lemma DashedReads(a: u16, b: u16)
    ensures VlanRange(Decimal(a) + "-" + Decimal(b)) == if a <= b then Some(Range(a, b)) else None
    ensures VlanRange(Decimal(a)).None?
  {
    var p := Decimal(a) + "-" + Decimal(b);
    var i := |Decimal(a)|;
    DecimalClean(a);
    assert p[..i] == Decimal(a) && p[i] == '-' && p[i + 1..] == Decimal(b);
    FindUnique(p, '-', i);
    ParseDecimal(a);
    ParseDecimal(b);
  }

  lemma PieceReads(r: Range)
    requires r.lo <= r.hi
    ensures ReadPiece(Piece(r)) == Some(r) && ',' !in Piece(r)
  {
    DecimalClean(r.lo);
    DecimalClean(r.hi);
    if r.lo == r.hi {
      ParseDecimal(r.lo);
    } else {
      DashedReads(r.lo, r.hi);
      assert Piece(r)[|Decimal(r.lo)|] == '-';
    }
  }

  /** The range reader takes exactly two numbers, the second not smaller, with a dash between. */
  lemma VlanRangeExactly(s: string, r: Range)
    ensures VlanRange(s) == Some(r) <==>
            r.lo <= r.hi && exists a, b :: s == a + "-" + b && ParseU16(a) == Some(r.lo) && ParseU16(b) == Some(r.hi)
  {
    hide ParseU16, Find;
    if VlanRange(s) == Some(r) {
      var i := Find(s, '-').value;
      assert s == s[..i] + "-" + s[i + 1..];
    }
    if a, b :| s == a + "-" + b && ParseU16(a) == Some(r.lo) && ParseU16(b) == Some(r.hi) {
      CutReads(a, b, r.lo);
    }
  }

  lemma CutReads(a: string, b: string, n: u16)
    requires ParseU16(a) == Some(n)
    ensures var s := a + "-" + b; Find(s, '-') == Some(|a|) && s[..|a|] == a && s[|a| + 1..] == b
  {
    NumberClean(a, n);
    hide ParseU16, Find;
    FindUnique(a + "-" + b, '-', |a|);
  }

  lemma NumberClean(s: string, n: u16)
    requires ParseU16(s) == Some(n)
    ensures '-' !in s
  {
    assert !IsDigit('-');
    assert s[0] == '+' ==> s == ['+'] + s[1..];
  }

  lemma NumberShortest(s: string, n: u16)
    requires ParseU16(s) == Some(n)
    ensures |s| >= |Decimal(n)| && (|s| == |Decimal(n)| ==> s == Decimal(n))
  {
    ParseU16Exactly(s, n);
    hide ParseU16, Decimal;
    var plus: bool, zeros: nat :| s == Numeral(plus, zeros, n);
  }

  /** Of all texts that read as a range, the printed piece is the one shortest: no leading zero, no sign, and
      a dash only between two different numbers. */
  lemma PieceShortest(t: string, r: Range)
    requires ReadPiece(t) == Some(r)
    ensures |t| >= |Piece(r)| && (|t| == |Piece(r)| ==> t == Piece(r))
  {
    hide ParseU16, VlanRange, Decimal;
    if '-' in t {
      VlanRangeExactly(t, r);
      var a, b :| t == a + "-" + b && ParseU16(a) == Some(r.lo) && ParseU16(b) == Some(r.hi);
      NumberShortest(a, r.lo);
      NumberShortest(b, r.hi);
    } else {
      NumberShortest(t, r.lo);
    }
  }

  /** The printed text is the pieces with a comma between neighbours. */
  lemma {:induction false} JoinSplits(rs: seq<Range>)
    requires rs != []
    ensures |Split(Join(rs))| == |rs| && forall i :: 0 <= i < |rs| ==> Split(Join(rs))[i] == Piece(rs[i])
  {
    var init, last := rs[..|rs| - 1], rs[|rs| - 1];
    assert rs == init + [last];
    DecimalClean(last.lo);
    DecimalClean(last.hi);
    assert ',' !in Piece(last);
    JoinSnoc(init, last);
    hide Join, Split, Piece, Decimal;
    if init == [] {
      SplitWhole(Piece(last));
      assert "" + Piece(last) == Piece(last);
    } else {
      JoinSplits(init);
      SplitSnoc(Join(init), Piece(last));
    }
  }

  ghost predicate AllOrdered(rs: seq<Range>) {
    forall i :: 0 <= i < |rs| ==> rs[i].lo <= rs[i].hi
  }

  lemma ReadPiecesSnoc(ps: seq<string>, p: string)
    ensures ReadPieces(ps + [p]) ==
      match (ReadPieces(ps), ReadPiece(p)) {
        case (Some(rs), Some(r)) => Some(rs + [r])
        case _ => None
      }
  {
    assert (ps + [p])[..|ps|] == ps;
  }

  lemma {:induction false} JoinReads(rs: seq<Range>)
    requires rs != [] && AllOrdered(rs)
    ensures ReadPieces(Split(Join(rs))) == Some(rs)
  {
    var init, last := rs[..|rs| - 1], rs[|rs| - 1];
    assert rs == init + [last];
    PieceReads(last);
    JoinSnoc(init, last);
    if init == [] {
      SplitWhole(Piece(last));
      ReadPiecesSnoc([], Piece(last));
      assert [] + [Piece(last)] == [Piece(last)];
    } else {
      JoinReads(init);
      SplitSnoc(Join(init), Piece(last));
      ReadPiecesSnoc(Split(Join(init)), Piece(last));
    }
  }

  lemma ExpandCons(r: Range, rs: seq<Range>)
    ensures Expand([r] + rs) == Span(r) + Expand(rs)
  {
    assert ([r] + rs)[1..] == rs;
  }

  lemma SpanOfRun(v: seq<u16>)
    requires v != []
    ensures var n := RunLength(v); Span(Range(v[0], v[n - 1])) == v[..n]
  {
    hide RunLength, Span;
    var n := RunLength(v);
    var s := Span(Range(v[0], v[n - 1]));
    assert v[n - 1] - (n - 1) == v[0];
    assert |s| == n;
    forall i | 0 <= i < n ensures s[i] == v[i] {
      assert v[i] - i == v[0];
    }
  }

  lemma ExpandNothing()
    ensures Expand(Runs([])) == []
  {
  }

  lemma {:induction false} RunsExpand(v: seq<u16>)
    ensures Expand(Runs(v)) == v
    decreases |v|
  {
    hide *;
    if v == [] {
      ExpandNothing();
    } else {
      var n := RunLength(v);
      var tail := v[n..];
      RunsStep(v);
      RunsExpand(tail);
      SpanOfRun(v);
      ExpandCons(Range(v[0], v[n - 1]), Runs(tail));
      assert v == v[..n] + tail;
    }
  }

  lemma {:induction false} RunsOrdered(v: seq<u16>)
    ensures AllOrdered(Runs(v))
    ensures Runs(v) == [] <==> v == []
  {
    if v != [] {
      hide Runs, Run;
      RunsStep(v);
      RunsOrdered(v[RunLength(v)..]);
    }
  }

  /** Printing then reading restores the list, in its order, for every list the printer accepts. */
  lemma ShowReadRoundTrip(v: seq<u16>)
    ensures ReadVlans(Join(Runs(v))) == Some(v)
  {
    RunsExpand(v);
    RunsOrdered(v);
    if v != [] {
      JoinSnoc(Runs(v), Runs(v)[0]);
      JoinReads(Runs(v));
    }
  }

  /** The printer accepts every list the topology map can hold. */
  lemma AscendingNeverOverflows(v: seq<u16>)
    requires Ascending(v)
    ensures !Overflows(v)
  {
    forall i | 0 <= i < |v| - 1 ensures v[i] != 0xffff {
      assert v[i] < v[i + 1];
    }
  }

  // ---------------------------------------------------------------- fewest ranges

  ghost predicate Covers(cover: seq<Range>, v: seq<u16>) {
    forall x: u16 :: x in v <==> InSome(cover, x)
  }

  ghost predicate InSome(cover: seq<Range>, x: u16) {
    exists j :: 0 <= j < |cover| && cover[j].lo <= x <= cover[j].hi
  }

  /** The ranges of `cover` that begin above `e`. */
  function Above(cover: seq<Range>, e: u16): (r: seq<Range>)
    ensures |r| <= |cover|
    ensures (exists j :: 0 <= j < |cover| && cover[j].lo <= e) ==> |r| < |cover|
    ensures forall x :: x in r <==> x in cover && x.lo > e
  {
    if cover == [] then [] else
      var rest := Above(cover[1..], e);
      assert cover == [cover[0]] + cover[1..];
      if cover[0].lo > e then
        assert (exists j :: 0 <= j < |cover| && cover[j].lo <= e) ==> |rest| < |cover[1..]| by {
          if j :| 0 <= j < |cover| && cover[j].lo <= e {
            assert cover[1..][j - 1].lo <= e;
          }
        }
        [cover[0]] + rest
      else rest
  }

  lemma {:induction false} GapAfterRun(v: seq<u16>, x: u16)
    requires v != [] && Ascending(v)
    ensures var n := RunLength(v);
      && !(x in v && Follows(v[n - 1], x))
      && (x in v[n..] <==> x in v && x > v[n - 1])
  {
    var n := RunLength(v);
    assert v == v[..n] + v[n..];
    assert forall k :: 0 <= k < n ==> v[k] <= v[n - 1];
    assert forall k :: n <= k < |v| ==> v[n - 1] < v[n] <= v[k];
  }

  lemma AboveGap(cover: seq<Range>, e: u16, x: u16)
    requires forall y: u16 :: Follows(e, y) ==> !InSome(cover, y)
    ensures InSome(Above(cover, e), x) <==> InSome(cover, x) && x > e
  {
    var rest := Above(cover, e);
    if InSome(cover, x) && x > e {
      var i :| 0 <= i < |cover| && cover[i].lo <= x <= cover[i].hi;
      var y: u16 := e + 1;
      assert Follows(e, y);
      assert cover[i] in rest;
    }
    if InSome(rest, x) {
      var k :| 0 <= k < |rest| && rest[k].lo <= x <= rest[k].hi;
      assert rest[k] in cover;
    }
  }

  /** Dropping the first run from an ascending list drops at least one range from any cover. */
  lemma CoverTail(v: seq<u16>, cover: seq<Range>)
    requires v != [] && Ascending(v) && Covers(cover, v)
    ensures var n := RunLength(v);
      Covers(Above(cover, v[n - 1]), v[n..]) && |Above(cover, v[n - 1])| < |cover|
  {
    var e := v[RunLength(v) - 1];
    forall y: u16 | Follows(e, y) ensures !InSome(cover, y) {
      GapAfterRun(v, y);
    }
    forall x: u16 ensures x in v[RunLength(v)..] <==> InSome(Above(cover, e), x) {
      GapAfterRun(v, x);
      AboveGap(cover, e, x);
    }
    assert v[0] in v && InSome(cover, v[0]);
  }

  /** No list of ranges with the same members is shorter than the printed one. */
  lemma {:induction false} RunsFewest(v: seq<u16>, cover: seq<Range>)
    requires Ascending(v) && Covers(cover, v)
    ensures |Runs(v)| <= |cover|
    decreases |v|
  {
    if v != [] {
      var n := RunLength(v);
      CoverTail(v, cover);
      RunsFewest(v[n..], Above(cover, v[n - 1]));
    }
  }

  /** Neighbouring printed ranges never touch. */
  lemma {:induction false} RunsMaximal(v: seq<u16>, i: nat)
    requires i + 1 < |Runs(v)|
    ensures !Follows(Runs(v)[i].hi, Runs(v)[i + 1].lo)
  {
    var n := RunLength(v);
    if i == 0 {
      assert Runs(v)[1] == Runs(v[n..])[0];
    } else {
      assert Runs(v)[i] == Runs(v[n..])[i - 1] && Runs(v)[i + 1] == Runs(v[n..])[i];
      RunsMaximal(v[n..], i - 1);
    }
  }
}
