/** Ceiling division, as used for batch and page counts. */
module Numbers {

  /** `ceil(n / d)` for a positive divisor. */
  function CeilDiv(n: nat, d: nat): nat
    requires d > 0
  {
    (n + d - 1) / d
  }

  /**
   * `c` is the ceiling of `n / d` exactly when `c` blocks of `d` cover `n`
   * and `c - 1` do not.
   */
  lemma {:induction false} CeilDivUnique(n: nat, d: nat, c: nat)
    requires d > 0
    ensures CeilDiv(n, d) == c <==> d * c >= n && (c == 0 || d * (c - 1) < n)
  {
    var q := CeilDiv(n, d);
    var m := n + d - 1;
    assert d * q <= m < d * q + d;
    if d * c >= n && (c == 0 || d * (c - 1) < n) {
      if c == 0 {
        assert n == 0;
        assert m < d;
        assert q == 0 by {
          if q >= 1 {
            MulMono(d, 1, q);
          }
        }
      } else {
        // d * (c - 1) < n gives d * c <= m; n <= d * c gives m < d * c + d.
        assert d * c == d * (c - 1) + d;
        assert d * c <= m < d * c + d;
        if q < c {
          assert d * (q + 1) == d * q + d;
          MulMono(d, q + 1, c);
        } else if q > c {
          assert d * (c + 1) == d * c + d;
          MulMono(d, c + 1, q);
        }
      }
    }
    if q == c {
      if c > 0 {
        assert d * c == d * (c - 1) + d;
      }
    }
  }

  lemma {:induction false} MulMono(d: nat, a: nat, b: nat)
    requires a <= b
    ensures d * a <= d * b
  {
  }

  /** No blocks exactly when there is nothing to cover. */
  lemma {:induction false} CeilDivZero(n: nat, d: nat)
    requires d > 0
    ensures CeilDiv(n, d) == 0 <==> n == 0
  {
    CeilDivUnique(n, d, 0);
  }
}
