/** Bytes and their big-endian reading. */
module Bytes {
  import opened Words

  type byte = b: int | 0 <= b < 256

  const SPACE: byte := 32

  function Pow256(n: nat): (p: nat)
    ensures p > 0
  {
    if n == 0 then 1 else 256 * Pow256(n - 1)
  }

  /** The value a byte string denotes, most significant byte first. */
  function Value(s: seq<byte>): nat {
    if s == [] then 0 else 256 * Value(s[..|s| - 1]) + s[|s| - 1]
  }

  /** The low n bytes of v, most significant first. */
  function BigEndian(v: nat, n: nat): (s: seq<byte>)
    ensures |s| == n
  {
    if n == 0 then [] else BigEndian(v / 256, n - 1) + [v % 256]
  }

  lemma {:induction false} BigEndianValue(v: nat, n: nat)
    ensures Value(BigEndian(v, n)) == v % Pow256(n)
  {
    if n > 0 {
      var s := BigEndian(v, n);
      assert s[..n - 1] == BigEndian(v / 256, n - 1);
      BigEndianValue(v / 256, n - 1);
      LowDigits(v, Pow256(n - 1));
    }
  }

  lemma LowDigits(v: nat, p: nat)
    requires p > 0
    ensures 256 * ((v / 256) % p) + v % 256 == v % (256 * p)
  {
    var q, d := v / 256, v % 256;
    var a, r := q / p, q % p;
    assert q == p * a + r;
    assert v == 256 * (p * a + r) + d;
    assert 256 * (p * a) == (256 * p) * a;
    RemainderUnique(v, a, 256 * r + d, 256 * p);
  }

  lemma {:induction false} ValueBelow(s: seq<byte>)
    ensures Value(s) < Pow256(|s|)
  {
    if s != [] { ValueBelow(s[..|s| - 1]); }
  }
}
