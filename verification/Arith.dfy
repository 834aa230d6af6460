/** Powers of two and the few facts about remainders that the other modules share. */
module Arith {

  function Pow2(k: nat): (r: nat)
    ensures r > 0
  {
    if k == 0 then 1 else 2 * Pow2(k - 1)
  }

  /** Quotient and remainder are unique. */
  lemma DivModUnique(p: int, n: int, q: int, r: int)
    requires n > 0 && p == q * n + r && 0 <= r < n
    ensures p / n == q && p % n == r
  {
    assert p == (p / n) * n + p % n;
    var d := q - p / n;
    assert d * n == p % n - r;
    MulGrows(d, n);
    assert d == 0;
  }

  lemma MulGrows(d: int, n: int)
    requires n > 0
    ensures d >= 1 ==> d * n >= n
    ensures d <= -1 ==> d * n <= -n
  {
  }

  /** An offset below `a * b` has quotient below `a` by `b`. */
  lemma DivLess(idx: nat, a: nat, b: nat)
    requires b > 0 && idx < a * b
    ensures idx / b < a && idx % b < b && idx == (idx / b) * b + idx % b
  {
    var q := idx / b;
    MulGrows(q + 1 - a, b);
    assert (q + 1 - a) * b == q * b + b - a * b;
  }

  /** Subtracting the remainder leaves a multiple. */
  lemma RoundDownMod(p: nat, n: nat)
    requires n > 0
    ensures 0 <= p - p % n <= p < p - p % n + n && (p - p % n) % n == 0
  {
    assert p - p % n == (p / n) * n + 0;
    DivModUnique(p - p % n, n, p / n, 0);
  }

  /** A multiple of `2n`, and the point `n` above it. */
  lemma HalvesMod(h: nat, n: nat)
    requires n > 0 && h % (2 * n) == 0
    ensures h % n == 0 && (h / n) % 2 == 0
    ensures (h + n) % n == 0 && ((h + n) / n) % 2 == 1
    ensures (h + n) % (2 * n) == n
  {
    var q := h / (2 * n);
    assert h == (2 * q) * n + 0;
    DivModUnique(h, n, 2 * q, 0);
    assert h + n == (2 * q + 1) * n + 0;
    DivModUnique(h + n, n, 2 * q + 1, 0);
    assert h + n == q * (2 * n) + n;
    DivModUnique(h + n, 2 * n, q, n);
  }

  /** A multiple of `n` rounded down to a multiple of `2n` moves down by `n` exactly when its quotient is odd. */
  lemma PairMod(h: nat, n: nat)
    requires n > 0 && h % n == 0
    ensures (h / n) % 2 == 0 ==> h % (2 * n) == 0 && (h + n) % n == 0 && ((h + n) / n) % 2 == 1
    ensures (h / n) % 2 == 1 ==> h >= n && h % (2 * n) == n && (h - n) % n == 0 && ((h - n) / n) % 2 == 0
  {
    var q := h / n;
    assert h == q * n + 0;
    ModDouble(h, n);
    ShiftByOne(h, n, q);
  }

  lemma ShiftByOne(h: nat, n: nat, q: nat)
    requires n > 0 && h == q * n
    ensures (h + n) / n == q + 1 && (h + n) % n == 0
    ensures q > 0 ==> h >= n && (h - n) / n == q - 1 && (h - n) % n == 0
  {
    assert h + n == (q + 1) * n + 0;
    DivModUnique(h + n, n, q + 1, 0);
    if q > 0 {
      MulGrows(q, n);
      assert h - n == (q - 1) * n + 0;
      DivModUnique(h - n, n, q - 1, 0);
    }
  }

  /** Taking the remainder by `d = 2n` first changes neither the remainder by `n` nor the parity of the quotient. */
  lemma ModThenMod(i: nat, n: nat, d: nat)
    requires n > 0 && d == 2 * n
    ensures (i % d) % n == i % n
    ensures ((i % d) / n) % 2 == (i / n) % 2
  {
    DivModIs(i, d);
    HalfOfTwice(i, n, d, i / d, i % d);
  }

  lemma DivModIs(i: nat, d: nat)
    requires d > 0
    ensures i / d >= 0 && i == (i / d) * d + i % d
  {
  }

  lemma HalfOfTwice(i: nat, n: nat, d: nat, t: nat, m: nat)
    requires n > 0 && d == 2 * n && i == t * d + m
    ensures m % n == i % n && (m / n) % 2 == (i / n) % 2
  {
    DivModIs(m, n);
    TwiceSplit(i, n, t, m, m / n, m % n);
  }

  lemma TwiceSplit(i: nat, n: nat, t: nat, m: nat, a: nat, r: nat)
    requires i == t * (2 * n) + m && m == a * n + r && r < n
    ensures i % n == r && i / n == 2 * t + a
  {
    assert t * (2 * n) == (2 * t) * n;
    assert (2 * t) * n + a * n == (2 * t + a) * n;
    DivModUnique(i, n, 2 * t + a, r);
  }
  /** `i >> k`, one place at a time. */
  function Shr(i: nat, k: nat): nat {
    if k == 0 then i else Shr(i, k - 1) / 2
  }

  lemma {:induction false} ShrIsDiv(i: nat, k: nat)
    ensures Shr(i, k) == i / Pow2(k)
  {
    if k > 0 {
      ShrIsDiv(i, k - 1);
      HalvePower(i, k);
    }
  }

  lemma {:induction false} ShrTwice(i: nat, a: nat, b: nat)
    ensures Shr(i, a + b) == Shr(Shr(i, a), b)
  {
    if b > 0 {
      ShrTwice(i, a, b - 1);
    }
  }

  lemma ShiftRight(i: nat, a: nat, b: nat)
    ensures i / Pow2(a + b) == (i / Pow2(a)) / Pow2(b)
  {
    ShrIsDiv(i, a + b);
    ShrIsDiv(i, a);
    ShrIsDiv(Shr(i, a), b);
    ShrTwice(i, a, b);
  }

  lemma HalvePower(i: nat, k: nat)
    requires k > 0
    ensures i / Pow2(k) == (i / Pow2(k - 1)) / 2
  {
    ModDouble(i, Pow2(k - 1));
  }

  /** The remainder by `2n` is the remainder by `n`, or that plus `n`. */
  lemma ModDouble(p: nat, n: nat)
    requires n > 0
    ensures p % (2 * n) == p % n || p % (2 * n) == p % n + n
    ensures p % (2 * n) == p % n <==> (p / n) % 2 == 0
    ensures p / (2 * n) == (p / n) / 2
  {
    var q, s := p / (2 * n), p % (2 * n);
    assert p == q * (2 * n) + s;
    if s < n {
      assert p == (2 * q) * n + s;
      DivModUnique(p, n, 2 * q, s);
    } else {
      assert p == (2 * q + 1) * n + (s - n);
      DivModUnique(p, n, 2 * q + 1, s - n);
    }
  }
}
