/** Quotients and remainders by a number that is not fixed. */
module Division {
  lemma {:induction false} AtLeastOnce(k: int, block: nat)
    requires k >= 1
    ensures k * block >= block
  {
    assert (k - 1) * block >= 0;
    assert k * block == (k - 1) * block + block;
  }

  /** Only zero is a multiple smaller than the block. */
  lemma {:induction false} NoMultiple(k: int, x: int, block: nat)
    requires k * block == x < block && -x < block
    ensures k == 0
  {
    if k > 0 { AtLeastOnce(k, block); }
    if k < 0 { AtLeastOnceBelow(k, block); }
  }

  lemma {:induction false} AtLeastOnceBelow(k: int, block: nat)
    requires k <= -1
    ensures k * block <= -(block as int)
  {
    assert (-1 - k) * block >= 0;
    assert k * block == -(block as int) - (-1 - k) * block;
  }

  /** Quotient and remainder are unique. */
  lemma {:induction false} SumRemainder(q: int, r: nat, block: nat)
    requires r < block
    ensures (q * block + r) % block == r && (q * block + r) / block == q
  {
    var x := q * block + r;
    var d, e := x / block, x % block;
    assert x == d * block + e;
    NoMultiple(q - d, e - r, block);
  }

  lemma {:induction false} DivideTwice(v: nat, m: nat, n: nat)
    requires m > 0 && n > 0
    ensures m * n > 0 && v / m / n == v / (m * n)
  {
    var x, t := v / m, v % m;
    var q, r := x / n, x % n;
    assert m * n > 0;
    assert v == x * m + t && x == q * n + r;
    assert (q * n + r) * m == q * (m * n) + r * m;
    Below(r, n, t, m);
    SumRemainder(q, r * m + t, m * n);
  }

  lemma {:induction false} Below(r: nat, n: nat, t: nat, m: nat)
    requires r < n && t < m
    ensures r * m + t < m * n
  {
    assert (n - 1 - r) * m >= 0;
    assert m * n == (n - 1 - r) * m + r * m + m;
  }
}
