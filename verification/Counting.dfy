// How often a counter modulo n falls into a range: the arithmetic behind the balancers' fairness.
module Counting {

  /** Among the k numbers from `start` on, those whose remainder modulo n lies in [low, high). */
  ghost function Hits(start: nat, k: nat, n: nat, low: nat, high: nat): nat
    requires n > 0
  {
    if k == 0 then 0
    else Hits(start, k - 1, n, low, high) + if low <= (start + k - 1) % n < high then 1 else 0
  }

  lemma {:induction false} HitsSplit(start: nat, a: nat, b: nat, n: nat, low: nat, high: nat)
    requires n > 0
    ensures Hits(start, a + b, n, low, high) == Hits(start, a, n, low, high) + Hits(start + a, b, n, low, high)
  {
    if b > 0 {
      HitsSplit(start, a, b - 1, n, low, high);
    }
  }

  lemma {:induction false} HitsAtMost(start: nat, k: nat, n: nat, low: nat, high: nat)
    requires n > 0
    ensures Hits(start, k, n, low, high) <= k
  {
    if k > 0 {
      HitsAtMost(start, k - 1, n, low, high);
    }
  }

  lemma {:induction false} HitsFromZero(k: nat, n: nat, low: nat, high: nat)
    requires n > 0 && low <= high <= n && k <= n
    ensures Hits(0, k, n, low, high) == if k <= low then 0 else if k <= high then k - low else high - low
  {
    if k > 0 {
      HitsFromZero(k - 1, n, low, high);
      ModuloUnique(k - 1, n, 0, k - 1);
    }
  }

  lemma ShiftModulo(x: nat, n: nat)
    requires n > 0
    ensures (x + n) % n == x % n
  {
    var q := x / n;
    assert x + n == (q + 1) * n + x % n;
    ModuloUnique(x + n, n, q + 1, x % n);
  }

  lemma ModuloUnique(x: int, n: int, q: int, r: int)
    requires n > 0 && x == q * n + r && 0 <= r < n
    ensures x / n == q && x % n == r
  {
    var d := q - x / n;
    assert d * n == x % n - r;
    assert d >= 1 ==> d * n >= n;
    assert d <= -1 ==> d * n <= -n;
  }

  /** A full cycle meets every remainder once, wherever it starts. */
  lemma {:induction false} FullCycle(start: nat, n: nat, low: nat, high: nat)
    requires n > 0 && low <= high <= n
    ensures Hits(start, n, n, low, high) == high - low
  {
    if start == 0 {
      HitsFromZero(n, n, low, high);
    } else {
      FullCycle(start - 1, n, low, high);
      HitsSplit(start - 1, 1, n - 1, n, low, high);
      HitsSplit(start, n - 1, 1, n, low, high);
      ShiftModulo(start - 1, n);
      assert Hits(start - 1, 1, n, low, high) == Hits(start - 1, 0, n, low, high)
        + if low <= (start - 1) % n < high then 1 else 0;
      assert Hits(start + n - 1, 1, n, low, high) == Hits(start + n - 1, 0, n, low, high)
        + if low <= (start + n - 1) % n < high then 1 else 0;
    }
  }

  lemma {:induction false} FullCycles(start: nat, q: nat, n: nat, low: nat, high: nat)
    requires n > 0 && low <= high <= n
    ensures Hits(start, q * n, n, low, high) == q * (high - low)
  {
    if q > 0 {
      FullCycles(start, q - 1, n, low, high);
      assert q * n == (q - 1) * n + n;
      assert q * (high - low) == (q - 1) * (high - low) + (high - low);
      HitsSplit(start, (q - 1) * n, n, n, low, high);
      FullCycle(start + (q - 1) * n, n, low, high);
    } else {
      assert q * n == 0 && q * (high - low) == 0;
    }
  }

  /** q full cycles and r more: a range of width w is met q*w times, and as often again as r and w allow. */
  lemma HitsInWindow(start: nat, q: nat, r: nat, n: nat, low: nat, high: nat)
    requires n > 0 && low <= high <= n && r < n
    ensures var w := high - low;
            && q * w <= Hits(start, q * n + r, n, low, high) <= q * w + w
            && q * w + r - (n - w) <= Hits(start, q * n + r, n, low, high) <= q * w + r
  {
    FullCycles(start, q, n, low, high);
    HitsSplit(start, q * n, r, n, low, high);
    var rest := start + q * n;
    FullCycle(rest, n, low, high);
    HitsSplit(rest, r, n - r, n, low, high);
    HitsAtMost(rest, r, n, low, high);
    HitsAtMost(rest + r, n - r, n, low, high);
  }
}
