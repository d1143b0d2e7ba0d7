/** `Permutation.wrap`: reduction of an index modulo the alphabet size. */
module Modular {

  /** Java's `%` on ints, which truncates toward zero (the remainder takes
      the sign of the dividend). */
  function JavaRem(p: int, n: int): (r: int)
    requires n > 0
    ensures p >= 0 ==> 0 <= r < n
    ensures p < 0 ==> -n < r <= 0
  {
    if p >= 0 then p % n else -((-p) % n)
  }

  /** `Permutation.wrap` as written: `r = p % size; if (r < 0) r += size;`. */
  function JavaWrap(p: int, n: int): (r: int)
    requires n > 0
    ensures 0 <= r < n
  {
    var r := JavaRem(p, n);
    if r < 0 then r + n else r
  }

  /** What `wrap` yields: p brought into [0, n) by whole steps of n.  The
      model uses this form; `JavaWrapIsWrap` shows it agrees with the
      computation as written. */
  function Wrap(p: int, n: int): (r: int)
    requires n > 0
    ensures 0 <= r < n
    decreases if p < 0 then 1 else 0, if p < 0 then -p else p
  {
    if p < 0 then Wrap(p + n, n)
    else if p >= n then Wrap(p - n, n)
    else p
  }

  /** Euclidean remainder is determined by any decomposition x == q*n + r. */
  lemma ModUnique(x: int, q: int, n: int, r: int)
    requires n > 0 && 0 <= r < n && x == q * n + r
    ensures x % n == r
  {
    var q0, r0 := x / n, x % n;
    var d := q - q0;
    assert d * n == r0 - r by {
      assert x == q0 * n + r0;
      assert q * n - q0 * n == (q - q0) * n;
    }
    if d > 0 {
      MulAtLeast(d, n);
    } else if d < 0 {
      MulAtLeast(-d, n);
    }
  }

  lemma MulAtLeast(d: int, n: int)
    requires d >= 1 && n > 0
    ensures d * n >= n
  {
    assert d * n == n + (d - 1) * n;
  }

  /** Java's truncating remainder, corrected upward when negative, is
      Dafny's Euclidean remainder. */
  lemma JavaWrapIsMod(p: int, n: int)
    requires n > 0
    ensures JavaWrap(p, n) == p % n
  {
    if p < 0 {
      var m := (-p) % n;
      var k := (-p) / n;
      assert -p == k * n + m;
      if m == 0 {
        ModUnique(p, -k, n, 0);
      } else {
        ModUnique(p, -k - 1, n, n - m);
      }
    }
  }

  /** Stepping by whole multiples of n ends at the Euclidean remainder. */
  lemma {:induction false} WrapIsMod(p: int, n: int)
    requires n > 0
    ensures Wrap(p, n) == p % n
    decreases if p < 0 then 1 else 0, if p < 0 then -p else p
  {
    if p < 0 {
      WrapIsMod(p + n, n);
      ModUnique(p, (p + n) / n - 1, n, (p + n) % n);
    } else if p >= n {
      WrapIsMod(p - n, n);
      ModUnique(p, (p - n) / n + 1, n, (p - n) % n);
    } else {
      ModUnique(p, 0, n, p);
    }
  }

  /** The model's `Wrap` is the computation `wrap` performs. */
  lemma JavaWrapIsWrap(p: int, n: int)
    requires n > 0
    ensures JavaWrap(p, n) == Wrap(p, n)
  {
    JavaWrapIsMod(p, n);
    WrapIsMod(p, n);
  }

  /** Adding a multiple of the modulus does not change the wrapped value. */
  lemma WrapShift(x: int, k: int, n: int)
    requires n > 0
    ensures Wrap(x + k * n, n) == Wrap(x, n)
  {
    WrapIsMod(x + k * n, n);
    WrapIsMod(x, n);
    ModShift(x, k, n);
  }

  lemma ModShift(x: int, k: int, n: int)
    requires n > 0
    ensures (x + k * n) % n == x % n
  {
    assert x + k * n == (x / n + k) * n + x % n by {
      assert (x / n + k) * n == (x / n) * n + k * n;
    }
    ModUnique(x + k * n, x / n + k, n, x % n);
  }

  /** Wrapping an intermediate sum early changes nothing. */
  lemma WrapInner(a: int, b: int, n: int)
    requires n > 0
    ensures Wrap(Wrap(a, n) + b, n) == Wrap(a + b, n)
  {
    WrapIsMod(a, n);
    assert Wrap(a, n) + b == (a + b) + (-(a / n)) * n;
    WrapShift(a + b, -(a / n), n);
  }

  /** An index already in range is its own wrap. */
  lemma WrapInRange(x: int, n: int)
    requires 0 <= x < n
    ensures Wrap(x, n) == x
  {
  }
}
