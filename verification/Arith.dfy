/** Small facts about division and multiplication by a positive integer. */
module Arith {

  function Min(a: int, b: int): (m: int)
    ensures m <= a && m <= b && (m == a || m == b)
  {
    if a <= b then a else b
  }

  function Max(a: int, b: int): (m: int)
    ensures m >= a && m >= b && (m == a || m == b)
  {
    if a >= b then a else b
  }

  /** a / b rounded up. */
  function CeilDiv(a: int, b: int): int
    requires b > 0
  {
    (a + b - 1) / b
  }

  lemma MulMono(a: int, b: int, d: int)
    requires d > 0
    ensures a <= b <==> a * d <= b * d
    ensures a < b <==> a * d < b * d
    ensures a == b <==> a * d == b * d
  {
    if a < b {
      assert a * d + d <= b * d by { assert (a + 1) * d <= b * d; }
    } else if b < a {
      assert b * d + d <= a * d by { assert (b + 1) * d <= a * d; }
    }
  }

  lemma MulMonoNat(a: int, b: int, m: nat)
    requires a <= b
    ensures a * m <= b * m
  {
    if m > 0 { MulMono(a, b, m); }
  }

  /** Quotient and remainder are unique. */
  lemma DivUnique(x: int, d: int, q: int, r: int)
    requires d > 0 && 0 <= r < d && x == q * d + r
    ensures x / d == q && x % d == r
  {
    var q', r' := x / d, x % d;
    assert x == q' * d + r';
    if q < q' {
      MulMono(q + 1, q', d);
      assert false;
    } else if q' < q {
      MulMono(q' + 1, q, d);
      assert false;
    }
  }

  /** k * d < w exactly when k is below the rounded-up quotient. */
  lemma CeilDivBound(w: int, d: int, k: int)
    requires d > 0
    ensures k * d < w <==> k < CeilDiv(w, d)
  {
    var n := CeilDiv(w, d);
    assert w + d - 1 == n * d + (w + d - 1) % d;
    if k < n {
      MulMono(k, n - 1, d);
      assert (n - 1) * d == n * d - d;
    } else {
      MulMono(n, k, d);
    }
  }

  /** Residues modulo n differ inside any run of n consecutive integers. */
  lemma DistinctResidues(i: int, j: int, n: int)
    requires n > 0 && i % n == j % n && -n < i - j < n
    ensures i == j
  {
    var a, b := i / n, j / n;
    assert i - j == (a - b) * n by {
      assert i == a * n + i % n && j == b * n + j % n;
      assert (a - b) * n == a * n - b * n;
    }
    MulMono(a - b, 1, n);
    MulMono(-1, a - b, n);
  }

  lemma ModShift(x: int, k: int, d: int)
    requires d > 0
    ensures (x + k * d) % d == x % d && (x + k * d) / d == x / d + k
  {
    assert (x / d + k) * d == x / d * d + k * d;
    DivUnique(x + k * d, d, x / d + k, x % d);
  }

  /** Dividing by a product in two stages. */
  lemma DivDiv(t: int, s: int, k: int)
    requires s > 0 && k > 0
    ensures s * k > 0 && t / (s * k) == t / s / k
  {
    MulMono(0, k, s);
    var a := t / s;
    var q := a / k;
    var r := s * (a % k) + t % s;
    assert t == q * (s * k) + r by {
      assert a == q * k + a % k;
      assert s * a == s * (q * k) + s * (a % k);
      assert s * (q * k) == q * (s * k);
    }
    assert 0 <= r < s * k by {
      MulMono(a % k, k - 1, s);
      assert (k - 1) * s == s * k - s;
      assert s * (a % k) == (a % k) * s;
      MulMono(0, a % k, s);
    }
    DivUnique(t, s * k, q, r);
  }
}
