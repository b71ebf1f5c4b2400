/**
 * The triangular fuzzy membership function of the risk-profile features:
 * `max(min((x - a)/(b - a), (c - x)/(c - b)), 0)` for a < b < c, and its
 * element-wise application to a column.
 */
module Membership {

  function Min(p: real, q: real): real {
    if p <= q then p else q
  }

  function Max(p: real, q: real): real {
    if p >= q then p else q
  }

  /** The rising ramp, 0 at a and 1 at b. */
  function Rise(x: real, a: real, b: real): real
    requires a < b
  {
    (x - a) / (b - a)
  }

  /** The falling ramp, 1 at b and 0 at c. */
  function Fall(x: real, b: real, c: real): real
    requires b < c
  {
    (c - x) / (c - b)
  }

  /** For a positive denominator, division keeps the order of numerators. */
  lemma DivMonotone(p: real, q: real, d: real)
    requires d > 0.0 && p <= q
    ensures p / d <= q / d
  {
    assert q / d - p / d == (q - p) / d;
  }

  /** n / d compared with 0 and 1, for positive d. */
  lemma DivUnit(n: real, d: real)
    requires d > 0.0
    ensures n / d <= 1.0 <==> n <= d
    ensures n / d >= 0.0 <==> n >= 0.0
    ensures n / d > 0.0 <==> n > 0.0
    ensures n / d == 1.0 <==> n == d
  {
    assert d / d == 1.0;
    assert 0.0 / d == 0.0;
    if n <= d {
      DivMonotone(n, d, d);
    } else {
      DivMonotone(d, n, d);
      assert n / d != 1.0 by {
        assert (n / d) * d == n;
      }
    }
    if n >= 0.0 {
      DivMonotone(0.0, n, d);
    } else {
      DivMonotone(n, 0.0, d);
      assert n / d != 0.0 by {
        assert (n / d) * d == n;
      }
    }
  }

  /** `triangular(x, a, b, c)`. */
  function Triangular(x: real, a: real, b: real, c: real): (m: real)
    requires a < b < c
    ensures 0.0 <= m <= 1.0
    ensures x == b ==> m == 1.0
    ensures x <= a || c <= x ==> m == 0.0
    ensures m > 0.0 <==> a < x < c
    ensures a <= x <= b ==> m == Rise(x, a, b)
    ensures b <= x <= c ==> m == Fall(x, b, c)
  {
    DivUnit(x - a, b - a);
    DivUnit(c - x, c - b);
    Max(Min(Rise(x, a, b), Fall(x, b, c)), 0.0)
  }

  /** Rising on [a, b]. */
  lemma TriangularRises(x: real, y: real, a: real, b: real, c: real)
    requires a < b < c && a <= x <= y <= b
    ensures Triangular(x, a, b, c) <= Triangular(y, a, b, c)
  {
    DivMonotone(x - a, y - a, b - a);
  }

  /** Falling on [b, c]. */
  lemma TriangularFalls(x: real, y: real, a: real, b: real, c: real)
    requires a < b < c && b <= x <= y <= c
    ensures Triangular(x, a, b, c) >= Triangular(y, a, b, c)
  {
    DivMonotone(c - y, c - x, c - b);
  }

  /** b is the only point of full membership. */
  lemma PeakOnlyAtB(x: real, a: real, b: real, c: real)
    requires a < b < c
    ensures Triangular(x, a, b, c) == 1.0 <==> x == b
  {
    DivUnit(x - a, b - a);
    DivUnit(c - x, c - b);
  }

  /** The function applied to every element of a column. */
  function TriangularAll(xs: seq<real>, a: real, b: real, c: real): (ms: seq<real>)
    requires a < b < c
    ensures |ms| == |xs|
    ensures forall i :: 0 <= i < |xs| ==> ms[i] == Triangular(xs[i], a, b, c)
  {
    seq(|xs|, i requires 0 <= i < |xs| => Triangular(xs[i], a, b, c))
  }

  /** Element i of the output depends on element i of the input only. */
  lemma TriangularAllPointwise(xs: seq<real>, ys: seq<real>, a: real, b: real, c: real, i: nat)
    requires a < b < c && |xs| == |ys| && i < |xs| && xs[i] == ys[i]
    ensures TriangularAll(xs, a, b, c)[i] == TriangularAll(ys, a, b, c)[i]
  {
  }
}
