/** Machine integers and sequence helpers shared by the three components. */
module Bytes {
  type u8 = x: int | 0 <= x < 0x100
  type u16 = x: int | 0 <= x < 0x1_0000
  type u32 = x: int | 0 <= x < 0x1_0000_0000

  datatype Option<+T> = None | Some(value: T)

  /** `n` zero bytes. */
  function Zeros(n: nat): (r: seq<u8>)
    ensures |r| == n && forall i :: 0 <= i < n ==> r[i] == 0
  {
    seq(n, i => 0)
  }

  /** The two bytes of `v`, most significant first (`u16::to_be_bytes`). */
  function Be16(v: u16): (r: seq<u8>)
    ensures |r| == 2 && FromBe16(r[0], r[1]) == v
  {
    [v / 256, v % 256]
  }

  /** `u16::from_be_bytes`. */
  function FromBe16(hi: u8, lo: u8): u16 {
    hi * 256 + lo
  }

  /** The big-endian word stored at offset `at`. */
  function Word(b: seq<u8>, at: nat): u16
    requires at + 2 <= |b|
  {
    FromBe16(b[at], b[at + 1])
  }

  /** `b` with the bytes from `at` onward overwritten by `x`. */
  function Splice(b: seq<u8>, at: nat, x: seq<u8>): (r: seq<u8>)
    requires at + |x| <= |b|
    ensures |r| == |b|
    ensures forall i :: 0 <= i < |b| ==> r[i] == if at <= i < at + |x| then x[i - at] else b[i]
  {
    b[..at] + x + b[at + |x|..]
  }

  /** `s` without its element at `i`. */
  function Without<T>(s: seq<T>, i: nat): (r: seq<T>)
    requires i < |s|
    ensures |r| == |s| - 1
    ensures forall x :: x in r ==> x in s
    ensures forall x :: x in s ==> x == s[i] || x in r
  {
    assert s == s[..i] + [s[i]] + s[i + 1..];
    s[..i] + s[i + 1..]
  }
}
