/** Products, quotients and remainders of integers, in steps the verifier can follow. */
module Arith {

  /** A product, named so that it can be reasoned about by the lemmas below. */
  function Mul(i: int, stride: int): int { i * stride }

  lemma MulStep(i: int, stride: int)
    ensures Mul(i + 1, stride) == Mul(i, stride) + stride && Mul(0, stride) == 0
  {
  }

  lemma MulMono(i: int, j: int, stride: int)
    requires i <= j && stride >= 0
    ensures i * stride <= j * stride && Mul(i, stride) <= Mul(j, stride)
    ensures i >= 0 ==> Mul(i, stride) >= 0
  {
  }

  /** Numbers written with different digits in places of p are different. */
  lemma DigitsDiffer(s: int, j: int, t: int, k: int, p: int)
    requires 0 <= j < p && 0 <= k < p && (s != t || j != k)
    ensures s * p + j != t * p + k
  {
    if s < t {
      MulMono(s + 1, t, p);
      MulDistributes(s, 1, p);
    } else if t < s {
      MulMono(t + 1, s, p);
      MulDistributes(t, 1, p);
    }
  }

  lemma MulSub(t: int, k: int, stride: int)
    ensures Mul(t - k, stride) + Mul(k, stride) == Mul(t, stride)
  {
  }

  lemma MulOne(c: int)
    ensures Mul(c, 1) == c
  {
  }

  lemma MulIs(a: int, b: int)
    ensures Mul(a, b) == b * a
  {
  }

  lemma MulSpread(d: int, q: int)
    ensures d * (q + 1) == d * q + d
  {
  }

  lemma MulDistributes(a: int, b: int, n: int)
    ensures (a + b) * n == a * n + b * n
  {
  }

  lemma ModAddMultiple(x: int, k: int, n: int)
    requires n > 0
    ensures (x + k * n) % n == x % n
  {
    var q, r := x / n, x % n;
    assert x == n * q + r;
    assert x + k * n == n * (q + k) + r by {
      assert n * (q + k) == n * q + n * k;
      assert k * n == n * k;
    }
    DivModUnique(x + k * n, n, q + k, r);
  }

  lemma DivModUnique(x: int, n: int, q: int, r: int)
    requires n > 0 && 0 <= r < n && x == n * q + r
    ensures x / n == q && x % n == r
  {
    var q', r' := x / n, x % n;
    assert x == n * q' + r';
    if q' > q {
      MulGe(n, q' - q);
    } else if q' < q {
      MulGe(n, q - q');
    }
  }

  lemma MulGe(n: int, k: int)
    requires n > 0 && k >= 1
    ensures n * k >= n
  {
  }

  /** Two residues of the same class less than n apart are equal. */
  lemma SameClass(x: int, y: int, n: int)
    requires n > 0 && x % n == y % n && -n < x - y < n
    ensures x == y
  {
    var qx, qy := x / n, y / n;
    assert x == n * qx + x % n && y == n * qy + y % n;
    assert x - y == n * (qx - qy) by { assert n * (qx - qy) == n * qx - n * qy; }
    if qx - qy >= 1 { MulGe(n, qx - qy); }
    if qy - qx >= 1 { MulGe(n, qy - qx); }
  }

  /** A larger divisor gives no larger quotient. */
  lemma DivMono(a: nat, m: int, n: int)
    requires 0 < m <= n
    ensures a / n <= a / m
  {
    var q, r := a / n, a / m;
    assert n * q <= a < m * (r + 1);
    MulMono(m, n, q);
    if q > r { MulMono(r + 1, q, m); }
  }

  /** A common factor cancels in a quotient. */
  lemma DivCancel(c: int, a: int, b: int)
    requires c > 0 && b > 0
    ensures c * b > 0 && (c * a) / (c * b) == a / b
  {
    var q, r := a / b, a % b;
    assert a == b * q + r;
    assert c * a == (c * b) * q + c * r by { assert c * (b * q) == (c * b) * q; }
    MulMono(r, b - 1, c);
    MulGe(c, b);
    assert r * c == c * r && (b - 1) * c == c * b - c;
    MulMono(0, r, c);
    DivModUnique(c * a, c * b, q, c * r);
  }

  /** Distinct numbers below m are at most m. */
  lemma {:induction false} Pigeonhole(f: seq<nat>, m: nat)
    requires forall i :: 0 <= i < |f| ==> f[i] < m
    requires forall i, j :: 0 <= i < j < |f| ==> f[i] != f[j]
    ensures |f| <= m
    decreases m
  {
    if f == [] {
      return;
    }
    assert f[0] < m;
    if k :| 0 <= k < |f| && f[k] == m - 1 {
      var g := f[..k] + f[k + 1..];
      forall i | 0 <= i < |g| ensures g[i] < m - 1 { assert g[i] == f[if i < k then i else i + 1]; }
      forall i, j | 0 <= i < j < |g| ensures g[i] != g[j] {
        assert g[i] == f[if i < k then i else i + 1] && g[j] == f[if j < k then j else j + 1];
      }
      Pigeonhole(g, m - 1);
    } else {
      Pigeonhole(f, m - 1);
    }
  }
}
