/** Index arithmetic of a ring of n slots: indices that are advanced and reset, against counters modulo n. */
module Ring {

  /** The slot of the k-th item that was ever put. */
  function Slot(k: nat, n: nat): (i: nat)
    requires n > 0
    ensures i < n
  {
    k % n
  }

  /** `if (++i >= n) i = 0`. */
  function Next(i: nat, n: nat): nat
  {
    if i + 1 >= n then 0 else i + 1
  }

  /** Up to n slots further on than a slot. */
  function Wrap(k: nat, n: nat): nat
  {
    if k < n then k else k - n
  }

  lemma {:induction false} SlotIs(k: nat, n: nat, q: int, r: nat)
    requires r < n && k == q * n + r
    ensures Slot(k, n) == r
  {
    var d := k / n - q;
    assert d * n == r - k % n;
    assert d >= 1 ==> d * n >= n;
    assert d <= -1 ==> d * n + n <= 0;
  }

  lemma {:induction false} SlotSmall(i: nat, n: nat)
    requires i < n
    ensures Slot(i, n) == i
  {
    SlotIs(i, n, 0, i);
  }

  lemma {:induction false} SlotAdd(a: nat, b: nat, n: nat)
    requires n > 0
    ensures Slot(a + b, n) == Slot(Slot(a, n) + b, n) == (Slot(a, n) + b) % n
  {
    var q, c := a / n, Slot(a, n) + b;
    var p := c / n;
    assert a + b == (p + q) * n + Slot(c, n) by {
      assert a == q * n + Slot(a, n) && c == p * n + Slot(c, n);
      assert (p + q) * n == p * n + q * n;
    }
    SlotIs(a + b, n, p + q, Slot(c, n));
  }

  lemma {:induction false} SlotNext(k: nat, n: nat)
    requires n > 0
    ensures Slot(k + 1, n) == Next(Slot(k, n), n)
  {
    WrapIsSlot(k, if n > 1 then 1 else 0, n);
    SlotAdd(k, 1, n);
    if n == 1 {
      SlotIs(k + 1, 1, k + 1, 0);
    }
  }

  lemma {:induction false} WrapIsSlot(lo: nat, j: nat, n: nat)
    requires j < n
    ensures Wrap(Slot(lo, n) + j, n) == Slot(lo + j, n)
  {
    var i := Slot(lo, n) + j;
    SlotAdd(lo, j, n);
    SlotIs(i, n, if i < n then 0 else 1, Wrap(i, n));
  }

  /** Fewer than n items apart, two items have slots of their own. */
  lemma {:induction false} SlotsDiffer(a: nat, b: nat, n: nat)
    requires a < b < a + n
    ensures Slot(a, n) != Slot(b, n)
  {
    WrapIsSlot(a, b - a, n);
  }

  /** n items apart, they share a slot. */
  lemma {:induction false} SlotsMeet(a: nat, n: nat)
    requires n > 0
    ensures Slot(a + n, n) == Slot(a, n)
  {
    assert (a / n + 1) * n == a / n * n + n;
    SlotIs(a + n, n, a / n + 1, Slot(a, n));
  }
}
