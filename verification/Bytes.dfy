/** Octets, the big-endian integers of the wire format, and the lesser and the greater of two integers. */
module Bytes {

  type byte = x: int | 0 <= x < 256

  function Max(a: int, b: int): int { if a < b then b else a }

  function Min(a: int, b: int): int { if a < b then a else b }

  /** The number of values that fit in `n` bytes. */
  function Radix(n: nat): (r: nat)
    ensures r >= 1
  {
    if n == 0 then 1 else 256 * Radix(n - 1)
  }

  /** The low `n` bytes of `v`, most significant first. */
  function BigEndian(v: nat, n: nat): (s: seq<byte>)
    ensures |s| == n
  {
    if n == 0 then [] else BigEndian(v / 256, n - 1) + [v % 256]
  }

  /** The number a big-endian byte sequence stands for. */
  function FromBig(s: seq<byte>): (v: nat)
    ensures v < Radix(|s|)
  {
    if s == [] then 0
    else
      assert |s[..|s| - 1]| == |s| - 1;
      256 * FromBig(s[..|s| - 1]) + s[|s| - 1]
  }

  /** Reading back what was written gives the value, reduced to the field's width. */
  lemma {:induction false} BigEndianRoundTrip(v: nat, n: nat)
    ensures FromBig(BigEndian(v, n)) == v % Radix(n)
  {
    if n > 0 {
      var s := BigEndian(v, n);
      assert s[..n - 1] == BigEndian(v / 256, n - 1);
      BigEndianRoundTrip(v / 256, n - 1);
      ModSplit(v, Radix(n - 1));
    }
  }

  lemma FieldRoundTrip(v: nat, n: nat)
    requires v < Radix(n)
    ensures FromBig(BigEndian(v, n)) == v
  {
    BigEndianRoundTrip(v, n);
  }

  /** Every byte sequence is the encoding of its own value. */
  lemma {:induction false} FromBigRoundTrip(s: seq<byte>)
    ensures BigEndian(FromBig(s), |s|) == s
  {
    if s != [] {
      FromBigRoundTrip(s[..|s| - 1]);
    }
  }

  lemma ModSplit(v: nat, m: nat)
    requires m >= 1
    ensures 256 * (v / 256 % m) + v % 256 == v % (256 * m)
  {
    var q, r := v / 256, v % 256;
    var a, b := q / m, q % m;
    assert v == 256 * (m * a + b) + r;
    assert v == (256 * m) * a + (256 * b + r);
    DivModUnique(v, 256 * m, a, 256 * b + r);
  }

  lemma DivModUnique(v: nat, d: nat, q: nat, r: nat)
    requires d >= 1 && v == d * q + r && r < d
    ensures v % d == r
  {
    var e := q - v / d;
    assert d * e == v % d - r;
    assert e >= 1 ==> d * e >= d;
    assert e <= -1 ==> d * -e >= d;
  }
}
