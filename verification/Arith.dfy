/** A few facts about products and quotients, and about going round a ring. */
module Arith {
  lemma Product(a: int, n: int)
    requires a >= 1 && n >= 0
    ensures a * n >= n
  {
  }

  lemma SameFactor(a: int, b: int, n: int)
    requires n >= 1 && -n < (a - b) * n < n
    ensures a == b
  {
    assert (b - a) * n == -((a - b) * n);
    if a != b {
      Product(if a > b then a - b else b - a, n);
    }
  }

  lemma QuotientIs(t: int, q: int, r: int, n: int)
    requires t == q * n + r && 0 <= r < n
    ensures t / n == q && t % n == r
  {
    assert (t / n - q) * n == r - t % n;
    if t / n > q {
      Product(t / n - q, n);
    } else if t / n < q {
      Product(q - t / n, n);
    }
  }

  // ------------------------------------------------------------------ going round a ring

  /** The place that the k-th use of a ring of n places falls on. */
  ghost function Slot(k: nat, n: nat): (b: nat)
    requires n >= 1
    ensures b < n
    decreases k
  {
    if k < n then k else Slot(k - n, n)
  }

  lemma {:induction false} SlotNext(k: nat, n: nat)
    requires n >= 1
    ensures Slot(k + 1, n) == if Slot(k, n) + 1 == n then 0 else Slot(k, n) + 1
    decreases k
  {
    if k >= n {
      SlotNext(k - n, n);
    } else if k + 1 == n {
      assert Slot(n, n) == Slot(0, n);
    }
  }

  lemma {:induction false} SlotDistinct(j: nat, k: nat, n: nat)
    requires n >= 1 && j < k < j + n
    ensures Slot(j, n) != Slot(k, n)
    decreases j
  {
    if j >= n {
      SlotDistinct(j - n, k - n, n);
    } else if k >= n {
      assert Slot(k, n) == Slot(k - n, n) == k - n;
    }
  }

  /** An index counted up modulo n walks through the slots. */
  lemma IndexNext(b: nat, n: nat)
    requires b < n
    ensures (b + 1) % n == if b + 1 == n then 0 else b + 1
  {
    if b + 1 == n {
      assert n % n == 0;
    } else {
      SmallIndex(b + 1, n);
    }
  }

  lemma SmallIndex(b: nat, n: nat)
    requires b < n
    ensures b % n == b
  {
  }
}
