/** Facts about products and Euclidean division on naturals that the index
    arithmetic of the grid needs (cell = row * N + column, and the box split). */
module Arith {

  lemma {:induction false} MulMonotone(a: nat, b: nat, k: nat)
    requires a <= b
    ensures a * k <= b * k
  {
    if k > 0 {
      MulMonotone(a, b, k - 1);
      assert a * k == a * (k - 1) + a;
      assert b * k == b * (k - 1) + b;
    }
  }

  /** A pair (q, r) with r < d packs into q * d + r below k * d when q < k. */
  lemma PackBound(q: nat, r: nat, d: nat, k: nat)
    requires q < k && r < d
    ensures q * d + r < k * d
  {
    MulMonotone(q + 1, k, d);
    assert (q + 1) * d == q * d + d;
  }

  /** Euclidean division recovers the quotient and remainder of q * d + r. */
  lemma DivModUnique(q: nat, r: nat, d: nat)
    requires 0 <= r < d
    ensures (q * d + r) / d == q && (q * d + r) % d == r
  {
    var x := q * d + r;
    var q', r' := x / d, x % d;
    assert q' * d + r' == q * d + r;
    if q' > q {
      MulMonotone(q + 1, q', d);
      assert false;
    } else if q' < q {
      MulMonotone(q' + 1, q, d);
      assert false;
    }
  }

  /** A number below k * d has a quotient below k. */
  lemma DivBound(x: nat, d: nat, k: nat)
    requires d > 0 && x < k * d
    ensures x / d < k && x % d < d
  {
    if x / d >= k {
      MulMonotone(k, x / d, d);
      assert false;
    }
  }
}
