/** Start delays that keep the pollers of a fleet apart. */
module Offset {
  import opened Basics

  const POLL_SPACING: Time := 3 * SECOND

  function Min(a: int, b: int): int {
    if a < b then a else b
  }

  function Spacing(n: nat, interval: Time): Time
    requires n > 0
  {
    Min(POLL_SPACING, interval / n)
  }

  /** How far a start may be shifted either way. */
  function Jitter(n: nat, interval: Time): Time
    requires n > 0
  {
    Spacing(n, interval) / 3
  }

  /** Whether `draw` is a value the random source can return for this fleet. */
  predicate Drawable(n: int, interval: Time, draw: int) {
    n > 1 && interval > 0 ==> 0 <= draw < Max(1, 2 * Jitter(n, interval))
  }

  /** The start delay of the i-th of n pollers. */
  method PollOffset(i: int, n: int, interval: Time, draw: int) returns (offset: Time)
    requires Drawable(n, interval, draw)
    ensures offset == if i <= 0 || n <= 1 || interval <= 0 then 0 else Placed(i, n, interval, draw)
    ensures 0 < i < n && n > 1 && interval > 0 ==>
      var s := if interval / n < 3 * SECOND then interval / n else 3 * SECOND;
      offset == i * s - s / 3 + draw
  {
    if i <= 0 || n <= 1 || interval <= 0 {
      return 0;
    }
    if i < n {
      PlacedAt(i, n, interval, draw);
    }
    var spacing := POLL_SPACING;
    var maxSpacing := interval / n;
    if spacing > maxSpacing {
      spacing := maxSpacing;
    }
    offset := i * spacing;
    var jitter := spacing / 3;
    if jitter > 0 {
      offset := offset + draw - jitter;
    }
    if offset < 0 {
      offset := 0;
    }
    if offset >= interval {
      offset := offset % interval;
    }
  }

  /** The position before the two clamps. */
  function Unclamped(i: nat, n: nat, interval: Time, draw: int): Time
    requires n > 0
  {
    i * Spacing(n, interval) + (if Jitter(n, interval) > 0 then draw - Jitter(n, interval) else 0)
  }

  function Placed(i: nat, n: nat, interval: Time, draw: int): Time
    requires n > 0 && interval > 0
  {
    var raised := Max(0, Unclamped(i, n, interval, draw));
    if raised >= interval then raised % interval else raised
  }

  lemma {:induction false} NoSpacingNoShift(n: nat, interval: Time, draw: int)
    requires n > 1 && interval > 0 && Drawable(n, interval, draw)
    ensures Jitter(n, interval) == 0 ==> draw == 0
    ensures Spacing(n, interval) >= 0
  {
  }

  /** Where the i-th of n pollers starts: at i times the spacing, three seconds or the n-th part of the
      interval if that is less, moved by the draw less a third of the spacing. */
  lemma {:induction false} PlacedAt(i: nat, n: nat, interval: Time, draw: int)
    requires n > 1 && interval > 0 && 0 < i < n && Drawable(n, interval, draw)
    ensures var s := if interval / n < 3 * SECOND then interval / n else 3 * SECOND;
            Placed(i, n, interval, draw) == i * s - s / 3 + draw
  {
    NoSpacingNoShift(n, interval, draw);
    if interval >= n {
      OffsetInRange(i, n, interval, draw);
    } else {
      assert Spacing(n, interval) == 0 by {
        DivSmall(interval, n);
      }
    }
  }

  lemma {:induction false} DivSmall(a: int, n: int)
    requires 0 <= a < n
    ensures a / n == 0
  {
  }

  lemma {:induction false} SpacingFits(n: nat, interval: Time)
    requires n > 1 && interval >= n
    ensures 1 <= Spacing(n, interval)
    ensures n * Spacing(n, interval) <= interval
    ensures 0 <= 3 * Jitter(n, interval) <= Spacing(n, interval)
  {
    var s := Spacing(n, interval);
    var q := interval / n;
    assert interval == n * q + interval % n;
    assert q <= 0 ==> n * q <= 0;
    assert n * (q - s) >= 0;
    assert n * (q - s) == n * q - n * s;
  }

  lemma {:induction false} Multiples(i: int, j: int, s: Time)
    requires i <= j && s >= 0
    ensures i * s <= j * s && j * s - i * s == (j - i) * s
  {
    assert (j - i) * s >= 0;
  }

  /** Neither clamp ever fires, and every poller starts within one interval. */
  lemma {:induction false} OffsetInRange(i: nat, n: nat, interval: Time, draw: int)
    requires n > 1 && interval >= n && 0 < i < n && Drawable(n, interval, draw)
    ensures Placed(i, n, interval, draw) == Unclamped(i, n, interval, draw)
    ensures Spacing(n, interval) - Jitter(n, interval) <= Placed(i, n, interval, draw)
    ensures Placed(i, n, interval, draw) <= interval - Spacing(n, interval) + Jitter(n, interval)
    ensures 0 <= Placed(i, n, interval, draw) < interval
  {
    SpacingFits(n, interval);
    var s := Spacing(n, interval);
    Multiples(1, i, s);
    Multiples(i, n - 1, s);
    assert (n - 1) * s == n * s - s;
  }

  /** The start of the i-th poller: the first starts at once, the others at their place. */
  function Start(i: nat, n: nat, interval: Time, draws: seq<int>): Time
    requires i < n == |draws| && interval > 0
  {
    if i == 0 || n <= 1 then 0 else Placed(i, n, interval, draws[i])
  }

  lemma {:induction false} StartInRange(i: nat, n: nat, interval: Time, draws: seq<int>)
    requires i < n == |draws| && interval > 0
    ensures 0 <= Start(i, n, interval, draws) < interval
  {
  }

  /** For every draw, starts strictly increase, neighbours stay more than s - 2*(s/3) apart, and the
      last leaves at least s - s/3 before the first poller's second poll: pollers never cluster. */
  lemma {:induction false} StartsAreSpread(n: nat, interval: Time, draws: seq<int>, i: nat, j: nat)
    requires n > 1 && interval >= n && |draws| == n
    requires forall k :: 0 <= k < n ==> Drawable(n, interval, draws[k])
    requires i < j < n
    ensures var s, jitter := Spacing(n, interval), Jitter(n, interval);
            && Start(j, n, interval, draws) - Start(i, n, interval, draws) >= (j - i) * s - 2 * jitter
            && Start(i, n, interval, draws) < Start(j, n, interval, draws)
            && interval - Start(j, n, interval, draws) >= s - jitter
            && 0 <= Start(i, n, interval, draws) && Start(j, n, interval, draws) < interval
  {
    SpacingFits(n, interval);
    var s := Spacing(n, interval);
    OffsetInRange(j, n, interval, draws[j]);
    if i > 0 {
      OffsetInRange(i, n, interval, draws[i]);
    }
    Multiples(i, j, s);
    Multiples(1, j - i, s);
  }
}
