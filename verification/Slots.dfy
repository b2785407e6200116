/** Where an ever-growing position lands in a ring of `size` slots, and when two positions
    land in the same one.  The ring buffers mask with `Size - 1`; for the powers of two they
    admit that is the remainder (SlotIsRemainder). */
module Slots {
  import opened Words

  function Slot(p: nat, size: nat): (i: nat)
    requires size > 0
    ensures i < size
  {
    if p < size then p else Slot(p - size, size)
  }

  lemma {:induction false} SlotIsRemainder(p: nat, size: nat)
    requires size > 0
    ensures Slot(p, size) == p % size
  {
    if p < size {
      RemainderUnique(p, 0, p, size);
    } else {
      var q := (p - size) / size;
      assert p - size == size * q + (p - size) % size;
      SlotIsRemainder(p - size, size);
      assert size * (q + 1) == size * q + size;
      RemainderUnique(p, q + 1, (p - size) % size, size);
    }
  }

  lemma {:induction false} SlotApart(p: nat, q: nat, size: nat)
    requires size > 0 && p < q < p + size
    ensures Slot(p, size) != Slot(q, size)
  {
    if p >= size { SlotApart(p - size, q - size, size); }
  }

  lemma SlotWraps(p: nat, size: nat)
    requires size > 0
    ensures Slot(p + size, size) == Slot(p, size)
  {
  }

  /** Two positions of one window of `size` positions never share a slot. */
  lemma WindowApart(lo: nat, p: nat, size: nat)
    requires size > 0 && lo <= p < lo + size
    ensures forall q: nat :: lo <= q < lo + size && q != p ==> Slot(q, size) != Slot(p, size)
  {
    forall q: nat | lo <= q < lo + size && q != p ensures Slot(q, size) != Slot(p, size) {
      if q < p { SlotApart(q, p, size); } else { SlotApart(p, q, size); }
    }
  }

  /** Stepping the masked index is masking the stepped position. */
  lemma {:induction false} SlotPlus(h: nat, k: nat, size: nat)
    requires size > 0
    ensures Slot(Slot(h, size) + k, size) == Slot(h + k, size)
  {
    if h >= size { SlotPlus(h - size, k, size); }
  }

  /** Masked indices less than a lap apart give back their distance. */
  lemma {:induction false} SlotDistance(h: nat, t: nat, size: nat)
    requires size > 0 && h <= t < h + size
    ensures t - h == if Slot(t, size) >= Slot(h, size) then Slot(t, size) - Slot(h, size)
                     else Slot(t, size) + size - Slot(h, size)
  {
    if h >= size { SlotDistance(h - size, t - size, size); }
  }
}
