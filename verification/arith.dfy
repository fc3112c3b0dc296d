/** Facts about multiplication and Euclidean division by a positive
    divisor, shared by the page arithmetic and the calendar. */
module Arith {

  lemma {:induction false} MulAtLeast(k: int, n: int)
    requires k >= 1 && n > 0
    ensures k * n >= n
    decreases k
  {
    if k > 1 {
      MulAtLeast(k - 1, n);
      assert k * n == (k - 1) * n + n;
    }
  }

  /** Multiplying by a natural keeps the order of naturals. */
  lemma MulMonotone(a: nat, b: nat, n: nat)
    ensures a <= b ==> a * n <= b * n
  {
  }

  /** Quotient and remainder are the only ones with `0 <= r < k`. */
  lemma DivUnique(a: int, k: nat, q: int, r: int)
    requires k > 0 && 0 <= r < k && a == q * k + r
    ensures a / k == q && a % k == r
  {
    var q', r' := a / k, a % k;
    assert (q - q') * k == r' - r;
    if q - q' >= 1 {
      MulAtLeast(q - q', k);
    } else if q' - q >= 1 {
      MulAtLeast(q' - q, k);
    }
  }

  /** Counting multiples of `k` up to `z + 1` adds one exactly at a multiple. */
  lemma DivStep(z: nat, k: nat)
    requires k > 0
    ensures (z + 1) / k == z / k + (if (z + 1) % k == 0 then 1 else 0)
  {
    var q, r := z / k, z % k;
    assert z == q * k + r;
    if r + 1 < k {
      assert z + 1 == q * k + (r + 1);
      DivUnique(z + 1, k, q, r + 1);
    } else {
      assert z + 1 == (q + 1) * k;
      DivUnique(z + 1, k, q + 1, 0);
    }
  }

  /** Adding the divisor adds one to the quotient. */
  lemma DivPlusOne(a: nat, n: nat)
    requires n > 0
    ensures (a + n) / n == a / n + 1
  {
    var q, r := a / n, a % n;
    var q', r' := (a + n) / n, (a + n) % n;
    assert (q' - q - 1) * n == r - r';
    var k := q' - q - 1;
    if k >= 1 {
      MulAtLeast(k, n);
    }
  }

  /** The quotient of a natural by a positive divisor is between zero and
      the dividend. */
  lemma DivBounds(a: nat, n: nat)
    requires n >= 1
    ensures 0 <= a / n <= a
  {
    var q, r := a / n, a % n;
    if q >= 1 {
      MulAtLeast(q, n);
      assert q * n >= q by {
        MulAtLeast(n, q);
      }
    }
  }
}
