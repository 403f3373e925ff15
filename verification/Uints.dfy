/** Unsigned 32-bit counters that are incremented and decremented any number of times. */
module Uints {
  const UINT: nat := 0x1_0000_0000

  /** The counter that should stand at n. */
  function Uint(n: nat): nat { n % UINT }

  function Minus(x: nat, y: nat): nat
    requires y <= UINT
  {
    (x + UINT - y) % UINT
  }

  /** Counters less than 2^32 apart say how far apart they are. */
  lemma UintMinus(r: nat, w: nat)
    requires r <= w < r + UINT
    ensures Minus(Uint(w), Uint(r)) == w - r && (Uint(r) == Uint(w) <==> r == w)
  {
  }

  lemma UintNext(n: nat)
    ensures Uint(Uint(n) + 1) == Uint(n + 1) && (n > 0 ==> Minus(Uint(n), 1) == Uint(n - 1))
  {
  }

  lemma UintPlus(n: nat, k: nat)
    ensures Uint(Uint(n) + k) == Uint(n + k)
  {
  }

  lemma UintBound(n: nat)
    ensures Uint(n) < UINT
  {
  }

  // ---- Ring buffers indexed by such a counter.

  /** Where a ring of this size keeps its n-th entry. */
  function Slot(n: nat, size: nat): (k: nat)
    requires size > 0
    ensures k < size
  {
    n % size
  }

  lemma SlotIs(n: nat, size: nat, q: nat, k: nat)
    requires n == size * q + k && k < size
    ensures Slot(n, size) == k
  {
    var q' := n / size;
    assert n == size * q' + n % size;
    if q' < q {
      assert size * (q' + 1) <= size * q;
    } else if q' > q {
      assert size * (q + 1) <= size * q';
    }
  }

  /** Entries less than a ring apart do not collide. */
  lemma SlotApart(j: nat, k: nat, size: nat)
    requires j < k < j + size
    ensures Slot(j, size) != Slot(k, size)
  {
    var a, b := j / size, k / size;
    assert j == size * a + Slot(j, size) && k == size * b + Slot(k, size);
    if a < b {
      assert size * (a + 1) <= size * b;
    } else {
      assert size * b <= size * a;
    }
  }

  /** When the size divides 2^32 the wrapped counter finds the same place. */
  lemma UintSlot(n: nat, size: nat)
    requires size > 0 && UINT % size == 0
    ensures Slot(Uint(n), size) == Slot(n, size)
  {
    var m, r := UINT / size, Uint(n);
    assert UINT == size * m;
    assert n == UINT * (n / UINT) + r;
    assert UINT * (n / UINT) == size * (m * (n / UINT));
    assert r == size * (r / size) + r % size;
    assert n == size * (m * (n / UINT) + r / size) + r % size;
    SlotIs(n, size, m * (n / UINT) + r / size, r % size);
  }
}
