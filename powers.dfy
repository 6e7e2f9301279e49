/** Powers of two and the integer base-2 logarithm, with the division facts
    the geometry and bit-string lemmas rest on. */
module Powers {

  function Pow2(k: nat): (r: nat)
    ensures r >= 1
  {
    if k == 0 then 1 else 2 * Pow2(k - 1)
  }

  /** The source's `(int) log2(n)`: the floor of the base-2 logarithm of a
      positive integer, which is exact on powers of two. */
  function Log2(n: nat): (r: nat)
    requires n >= 1
    ensures Pow2(r) <= n < 2 * Pow2(r)
  {
    if n == 1 then 0 else 1 + Log2(n / 2)
  }

  predicate IsPow2(n: nat)
  {
    n >= 1 && Pow2(Log2(n)) == n
  }

  /** The ceiling of the base-2 logarithm of a positive integer. */
  function CeilLog2(n: nat): (r: nat)
    requires n >= 1
    ensures n <= Pow2(r)
    ensures r == 0 || Pow2(r - 1) < n
  {
    if IsPow2(n) then Log2(n) else Log2(n) + 1
  }

  /** The source's `(int)(log2(n) - k)` for a whole `k`: the real difference
      truncated toward zero. When `k <= Log2(n)` the difference is at least
      zero and truncates to `Log2(n) - k`; otherwise it is negative and
      truncates upward, to `CeilLog2(n) - k`. The result is the floor-first
      difference `Log2(n) - k` exactly when the difference is not negative
      or `n` is a power of two, and one more than it otherwise. */
  function TruncLog2Minus(n: nat, k: int): (r: int)
    requires n >= 1
    ensures r == Log2(n) - k <==> k <= Log2(n) || IsPow2(n)
    ensures Log2(n) - k <= r <= Log2(n) - k + 1
  {
    if k <= Log2(n) then Log2(n) - k else CeilLog2(n) - k
  }

  lemma {:induction false} Pow2Add(a: nat, b: nat)
    ensures Pow2(a + b) == Pow2(a) * Pow2(b)
  {
    if a > 0 {
      Pow2Add(a - 1, b);
      assert Pow2(a + b) == 2 * Pow2(a - 1 + b);
    }
  }

  lemma MulBound(x: int, q: int)
    requires q >= 0
    ensures x >= 1 ==> x * q >= q
    ensures x <= -1 ==> x * q <= -q
  {
  }

  /** Quotient and remainder are the only such pair. */
  lemma DivUnique(x: int, d: int, k: int, r: int)
    requires d >= 1 && 0 <= r < d && x == k * d + r
    ensures x / d == k && x % d == r
  {
    var q: int, m: int := x / d, x % d;
    assert (k - q) * d == m - r;
    MulBound(k - q, d);
  }

  /** A positive divisor no larger than the dividend leaves a positive
      quotient. */
  lemma DivPositive(n: nat, d: nat)
    requires 1 <= d <= n
    ensures n / d >= 1
  {
  }

  /** Halving, reducing modulo `p` and putting the low bit back reduces
      modulo `2p`. */
  lemma HalveMod(n: nat, p: nat)
    requires p >= 1
    ensures 2 * ((n / 2) % p) + n % 2 == n % (2 * p)
  {
    var h := n / 2;
    assert h == (h / p) * p + h % p;
    assert n == (h / p) * (2 * p) + (2 * (h % p) + n % 2);
    DivUnique(n, 2 * p, h / p, 2 * (h % p) + n % 2);
  }

  lemma MulDivCancel(p: nat, q: nat)
    requires q >= 1
    ensures (p * q) / q == p
  {
    DivUnique(p * q, q, p, 0);
  }

  /** Dividing powers of two subtracts exponents. */
  lemma Pow2Div(a: nat, b: nat)
    requires b <= a
    ensures Pow2(a) / Pow2(b) == Pow2(a - b)
  {
    Pow2Add(a - b, b);
    MulDivCancel(Pow2(a - b), Pow2(b));
  }

  lemma {:induction false} Pow2Monotone(a: nat, b: nat)
    requires a <= b
    ensures Pow2(a) <= Pow2(b)
  {
    if a < b {
      Pow2Monotone(a, b - 1);
    }
  }

  /** The integer logarithm is exact on powers of two. */
  lemma {:induction false} Log2Pow2(k: nat)
    ensures Log2(Pow2(k)) == k
  {
    if k > 0 {
      assert Pow2(k) / 2 == Pow2(k - 1);
      Log2Pow2(k - 1);
    }
  }

  /** On a power of two the truncated difference is the exact one. */
  lemma TruncLog2MinusPow2(m: nat, k: int)
    ensures TruncLog2Minus(Pow2(m), k) == m - k
  {
    Log2Pow2(m);
  }
}
