/** Bytes and little-endian fields. */
module Bytes {

  type byte = x: int | 0 <= x < 256

  function Pow256(n: nat): (p: nat)
    ensures p >= 1
  {
    if n == 0 then 1 else 256 * Pow256(n - 1)
  }

  /** `n` little-endian bytes of `v`. */
  function LittleEndian(v: nat, n: nat): (s: seq<byte>)
    ensures |s| == n
  {
    if n == 0 then [] else [v % 256] + LittleEndian(v / 256, n - 1)
  }

  /** The number little-endian bytes stand for. */
  function Number(s: seq<byte>): nat {
    if s == [] then 0 else s[0] + 256 * Number(s[1..])
  }

  lemma {:induction false} NumberOfLittleEndian(v: nat, n: nat)
    requires v < Pow256(n)
    ensures Number(LittleEndian(v, n)) == v
  {
    if n == 0 {
    } else {
      NumberOfLittleEndian(v / 256, n - 1);
      assert LittleEndian(v, n)[1..] == LittleEndian(v / 256, n - 1);
    }
  }

  lemma Digits(b: byte, v: nat)
    ensures (b + 256 * v) % 256 == b && (b + 256 * v) / 256 == v
  {
  }

  lemma NumberStep(s: seq<byte>)
    requires s != []
    ensures Number(s) == s[0] + 256 * Number(s[1..])
    ensures LittleEndian(Number(s), |s|) == [Number(s) % 256] + LittleEndian(Number(s) / 256, |s| - 1)
  {
  }

  lemma {:induction false} LittleEndianOfNumber(s: seq<byte>)
    ensures Number(s) < Pow256(|s|) && LittleEndian(Number(s), |s|) == s
  {
    if s == [] {
    } else {
      LittleEndianOfNumber(s[1..]);
      Digits(s[0], Number(s[1..]));
      hide Number, LittleEndian;
      NumberStep(s);
      assert s == [s[0]] + s[1..];
    }
  }

  /** Python's s[lo:hi]: bounds past the end are cut to the length. */
  function Slice<T>(s: seq<T>, lo: nat, hi: nat): seq<T> {
    var h := if hi <= |s| then hi else |s|;
    if lo <= h then s[lo..h] else []
  }
}
