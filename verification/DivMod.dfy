/** Quotients and remainders by a variable divisor. */
module DivMod {

  lemma MulAtLeast(k: int, n: nat)
    ensures k >= 1 ==> k * n >= n
    ensures k <= -1 ==> k * n + n <= 0
  {
    if k >= 1 {
      assert (k - 1) * n >= 0;
    } else if k <= -1 {
      assert (k + 1) * n <= 0;
    }
  }

  lemma DivSplit(x: nat, n: nat)
    requires n > 0
    ensures x == (x / n) * n + x % n && 0 <= x / n && 0 <= x % n < n
  {
  }

  lemma ModUnique(x: nat, n: nat, q: nat, r: nat)
    requires n > 0 && x == q * n + r && r < n
    ensures x / n == q && x % n == r
  {
    var k := x / n - q;
    assert x == (x / n) * n + x % n;
    assert k * n == r - x % n;
    MulAtLeast(k, n);
  }

  lemma ModAdd(i: nat, n: nat)
    requires n > 0
    ensures (n + i) % n == i % n
  {
    var q, r := i / n, i % n;
    assert n + i == (q + 1) * n + r;
    ModUnique(n + i, n, q + 1, r);
  }

  lemma ModShift(x: nat, k: nat, n: nat)
    requires n > 0
    ensures (k * n + x) % n == x % n
  {
    var q, r := x / n, x % n;
    assert x == q * n + r;
    assert k * n + x == (k + q) * n + r;
    ModUnique(k * n + x, n, k + q, r);
  }

  lemma ModShiftSum(x: nat, k: nat, i: nat, n: nat)
    requires n > 0
    ensures (x + (k + i)) % n == ((x + k) % n + i) % n
  {
    var q, r := (x + k) / n, (x + k) % n;
    DivSplit(x + k, n);
    ModShift(r + i, q, n);
    assert x + (k + i) == q * n + (r + i);
  }

  lemma NextQuotient(x: nat, n: nat)
    requires n > 0
    ensures (x + 1) / n == x / n + if x % n == n - 1 then 1 else 0
  {
    var q, r := x / n, x % n;
    assert x == q * n + r;
    if r == n - 1 {
      assert x + 1 == (q + 1) * n + 0;
      ModUnique(x + 1, n, q + 1, 0);
    } else {
      ModUnique(x + 1, n, q, r + 1);
    }
  }

  lemma DivClose(x: nat, y: nat, n: nat)
    requires n > 0 && x <= y < x + n
    ensures x / n <= y / n <= x / n + 1
  {
    var q, r := x / n, x % n;
    assert x == q * n + r;
    if r + (y - x) < n {
      ModUnique(y, n, q, r + (y - x));
    } else {
      assert y == (q + 1) * n + (r + (y - x) - n);
      ModUnique(y, n, q + 1, r + (y - x) - n);
    }
  }

  lemma DivDivBy(n: nat, d: nat, p: nat)
    requires p >= 1 && d >= 1
    ensures d * p > 0 && n / (d * p) == n / d / p
  {
    var q, r, low := n / d / p, n / d % p, n % d;
    DivSplit(n, d);
    DivSplit(n / d, p);
    calc {
      n;
      (q * p + r) * d + low;
      q * p * d + r * d + low;
      q * (d * p) + (r * d + low);
    }
    MulAtLeast(p - 1 - r, d);
    assert (p - r) * d == p * d - r * d;
    assert r * d + low < d * p by {
      assert (p - r) * d >= d;
    }
    ModUnique(n, d * p, q, r * d + low);
  }
}
