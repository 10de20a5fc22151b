/** Division of a time line into periods of equal length. */
module Grid {

  /** The number of the period of length `interval`, counted from `origin`, that holds `t`. */
  function Period(origin: int, interval: int, t: int): (k: int)
    requires interval > 0
    ensures origin + interval * k <= t < origin + interval * (k + 1)
  {
    (t - origin) / interval
  }

  function Point(origin: int, interval: int, j: int): int {
    origin + interval * j
  }

  lemma {:induction false} PointsOrdered(origin: int, interval: int, j: int, k: int)
    requires interval > 0 && j <= k
    ensures Point(origin, interval, j) + interval * (k - j) == Point(origin, interval, k)
    ensures Point(origin, interval, j) <= Point(origin, interval, k)
  {
    assert interval * (k - j) == interval * k - interval * j;
    assert interval * (k - j) >= 0;
  }

  lemma {:induction false} PeriodIs(origin: int, interval: int, t: int, k: int)
    requires interval > 0
    requires Point(origin, interval, k) <= t < Point(origin, interval, k + 1)
    ensures Period(origin, interval, t) == k
  {
    var p := Period(origin, interval, t);
    if p < k {
      PointsOrdered(origin, interval, p + 1, k);
    } else if k < p {
      PointsOrdered(origin, interval, k + 1, p);
    }
  }

  lemma {:induction false} PeriodMonotone(origin: int, interval: int, t: int, u: int)
    requires interval > 0 && t <= u
    ensures Period(origin, interval, t) <= Period(origin, interval, u)
  {
    var p, q := Period(origin, interval, t), Period(origin, interval, u);
    if q < p {
      PointsOrdered(origin, interval, q + 1, p);
    }
  }

  lemma {:induction false} PeriodAdvancesByOne(origin: int, interval: int, t: int, u: int)
    requires interval > 0 && t <= u <= t + interval
    ensures Period(origin, interval, t) <= Period(origin, interval, u) <= Period(origin, interval, t) + 1
  {
    PeriodMonotone(origin, interval, t, u);
    var p, q := Period(origin, interval, t), Period(origin, interval, u);
    if q > p + 1 {
      PointsOrdered(origin, interval, p + 2, q);
      PointsOrdered(origin, interval, p + 1, p + 2);
    }
  }

  /** A point lies in `(t, u]` exactly when the period number grows between the two. */
  lemma {:induction false} PointBetween(origin: int, interval: int, t: int, u: int)
    requires interval > 0 && t <= u
    ensures Period(origin, interval, t) < Period(origin, interval, u)
            <==> exists j :: t < Point(origin, interval, j) <= u
  {
    var p, q := Period(origin, interval, t), Period(origin, interval, u);
    PeriodMonotone(origin, interval, t, u);
    if p < q {
      PointsOrdered(origin, interval, p + 1, q);
      assert t < Point(origin, interval, q) <= u;
    }
    if j :| t < Point(origin, interval, j) <= u {
      if j <= p {
        PointsOrdered(origin, interval, j, p);
      }
      if q < j {
        PointsOrdered(origin, interval, q + 1, j);
      }
    }
  }

  lemma {:induction false} CoarsePointIsFine(origin: int, fine: int, factor: int, j: int)
    ensures Point(origin, fine * factor, j) == Point(origin, fine, factor * j)
  {
    assert (fine * factor) * j == fine * (factor * j);
  }

  /** Points of a coarser grid with the same origin are points of the finer one. */
  lemma {:induction false} CoarserPeriod(origin: int, fine: int, factor: int, coarse: int, t: int, u: int)
    requires fine > 0 && coarse > 0 && coarse == fine * factor && t <= u
    ensures Period(origin, coarse, t) < Period(origin, coarse, u)
            ==> Period(origin, fine, t) < Period(origin, fine, u)
  {
    PointBetween(origin, coarse, t, u);
    PointBetween(origin, fine, t, u);
    if j :| t < Point(origin, coarse, j) <= u {
      CoarsePointIsFine(origin, fine, factor, j);
      assert t < Point(origin, fine, factor * j) <= u;
    }
  }

  /** The quotient rounded up. */
  function Ceil(a: int, b: int): (q: int)
    requires b > 0
    ensures b * q - b < a <= b * q
  {
    -((-a) / b)
  }

  /** Only one multiple of `b` lies at or above `a` by less than `b`. */
  lemma {:induction false} RoundedUpOnce(a: int, b: int, q: int, r: int)
    requires b > 0 && b * q - b < a <= b * q && b * r - b < a <= b * r
    ensures q == r
  {
    if r < q {
      PointsOrdered(0, b, r, q - 1);
      PointsOrdered(0, b, q - 1, q);
    } else if q < r {
      PointsOrdered(0, b, q, r - 1);
      PointsOrdered(0, b, r - 1, r);
    }
  }

  lemma {:induction false} CeilIs(a: int, b: int, q: int)
    requires b > 0 && b * q - b < a <= b * q
    ensures Ceil(a, b) == q
  {
    RoundedUpOnce(a, b, q, Ceil(a, b));
  }

  /** Multiples of `b` less than `b` away from `a` on either side are the two that enclose it. */
  lemma {:induction false} EnclosingMultiples(a: int, b: int, q: int, n: int)
    requires b > 0 && b * q <= a < b * q + b && a - b < b * n < a + b
    ensures n == q || (n == q + 1 && a != b * q)
  {
    if n < q {
      PointsOrdered(0, b, n, q - 1);
      PointsOrdered(0, b, q - 1, q);
    } else if n > q {
      PointsOrdered(0, b, q, q + 1);
      if n > q + 1 {
        PointsOrdered(0, b, q + 2, n);
        PointsOrdered(0, b, q + 1, q + 2);
      }
    }
  }

  lemma {:induction false} FloorOrCeil(a: int, b: int, n: int)
    requires b > 0 && a - b < b * n < a + b
    ensures n == a / b || n == Ceil(a, b)
    ensures a % b == 0 ==> n == a / b == Ceil(a, b)
  {
    var q := Period(0, b, a);
    assert b * (q + 1) == b * q + b;
    EnclosingMultiples(a, b, q, n);
    assert a == b * q + a % b;
    CeilIs(a, b, if a == b * q then q else q + 1);
  }
}
