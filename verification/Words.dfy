/** 64-bit words, their sums, and remainders. */
module Words {

  const WORD: nat := 0x1_0000_0000_0000_0000
  const UINT64_MAX: Word := 0xFFFF_FFFF_FFFF_FFFF

  type Word = n: int | 0 <= n < 0x1_0000_0000_0000_0000

  function Sum(ws: seq<Word>): nat {
    if ws == [] then 0 else Sum(ws[..|ws| - 1]) + ws[|ws| - 1]
  }

  lemma RemainderUnique(x: int, q: int, r: nat, size: nat)
    requires size > 0 && x == size * q + r && r < size
    ensures x % size == r
  {
    var b := x / size;
    assert x == size * b + x % size;
    var k := q - b;
    assert size * k == x % size - r;
    assert k >= 1 ==> size * k >= size;
    assert k <= -1 ==> size * k + size <= 0;
  }
}
