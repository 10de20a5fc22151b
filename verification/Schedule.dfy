/** When each command is issued: the deadline map, its update rule, and the grid it follows. */
module Schedule {
  import opened Basics
  import opened Catalogue
  import opened Grid

  type Deadlines = map<Command, Time>

  predicate IsDue(next: Deadlines, c: CmdSpec, now: Time) {
    !(c.name in next && now < next[c.name])
  }

  function Due(next: Deadlines, specs: seq<CmdSpec>, now: Time): seq<CmdSpec> {
    Select(specs, c => IsDue(next, c, now))
  }

  function NextDeadline(previous: Option<Time>, interval: Time, now: Time): Time {
    if interval <= 0 then now
    else
      match previous
      case None => now + interval
      case Some(p) =>
        var next := p + interval;
        if next > now then next else now + (interval - (now - next) % interval)
  }

  function MarkDue(next: Deadlines, issued: seq<CmdSpec>, now: Time): Deadlines {
    if issued == [] then next
    else
      var c := issued[|issued| - 1];
      var earlier := MarkDue(next, issued[..|issued| - 1], now);
      earlier[c.name := NextDeadline(Lookup(earlier, c.name), c.interval, now)]
  }

  // --- One poll ---------------------------------------------------------------------------------

  lemma {:induction false} MarkDueOf(next: Deadlines, issued: seq<CmdSpec>, now: Time, c: CmdSpec)
    requires Distinct(issued)
    ensures c.name !in Names(issued) ==> Lookup(MarkDue(next, issued, now), c.name) == Lookup(next, c.name)
    ensures c in issued ==>
      Lookup(MarkDue(next, issued, now), c.name)
      == Some(NextDeadline(Lookup(next, c.name), c.interval, now))
  {
    if issued != [] {
      var n := |issued| - 1;
      var init := issued[..n];
      MarkDueOf(next, init, now, c);
      assert issued == init + [issued[n]];
      if c.name in Names(init) {
        var i :| 0 <= i < n && init[i].name == c.name;
        assert issued[i].name == c.name && issued[i] != issued[n];
      }
      if c == issued[n] {
        assert c.name !in Names(init);
      } else if c in issued {
        assert c in init;
        assert c.name in Names(init);
        assert issued[n].name != c.name;
      }
    }
  }

  /** A command whose deadline is a grid point moves to a later grid point: the first one past
      `now`, or one past the deadline itself when it is polled before it is due. */
  lemma {:induction false} NextDeadlineOnGrid(origin: Time, interval: Time, m: int, now: Time)
    requires interval > 0
    ensures NextDeadline(Some(Point(origin, interval, m)), interval, now)
            == Point(origin, interval, Max(m + 1, Period(origin, interval, now) + 1))
  {
    var p := Period(origin, interval, now);
    PointsOrdered(origin, interval, m, m + 1);
    var next := Point(origin, interval, m + 1);
    if next > now {
      if p > m {
        PointsOrdered(origin, interval, m + 1, p);
      }
    } else {
      if p < m + 1 {
        PointsOrdered(origin, interval, p + 1, m + 1);
      }
      PointsOrdered(origin, interval, m + 1, p);
      PointsOrdered(origin, interval, p, p + 1);
      Remainder(now - next, interval, p - (m + 1), now - Point(origin, interval, p));
    }
  }

  lemma {:induction false} Remainder(total: int, divisor: int, quotient: int, rest: int)
    requires divisor > 0 && total == divisor * quotient + rest && 0 <= rest < divisor
    ensures total % divisor == rest
  {
    assert divisor * (quotient + 1) == divisor * quotient + divisor;
    PeriodIs(0, divisor, total, quotient);
    assert total == divisor * (total / divisor) + total % divisor;
  }

  // --- Runs -------------------------------------------------------------------------------------

  /** One call into the collector: a scheduled tick, or a forced poll of every command. */
  datatype Wake = Wake(now: Time, forced: bool)

  function Issued(next: Deadlines, specs: seq<CmdSpec>, w: Wake): seq<CmdSpec> {
    if w.forced then specs else Due(next, specs, w.now)
  }

  function Step(next: Deadlines, specs: seq<CmdSpec>, w: Wake): Deadlines {
    MarkDue(next, Issued(next, specs, w), w.now)
  }

  /** The deadlines after a sequence of calls on a fresh switch. */
  function After(specs: seq<CmdSpec>, wakes: seq<Wake>): Deadlines {
    if wakes == [] then map[]
    else Step(After(specs, wakes[..|wakes| - 1]), specs, wakes[|wakes| - 1])
  }

  /** What the `k`-th call of a run issues. */
  function IssuedAt(specs: seq<CmdSpec>, wakes: seq<Wake>, k: nat): seq<CmdSpec>
    requires k < |wakes|
  {
    Issued(After(specs, wakes[..k]), specs, wakes[k])
  }

  ghost predicate Forward(wakes: seq<Wake>) {
    forall i, j :: 0 <= i <= j < |wakes| ==> wakes[i].now <= wakes[j].now
  }

  ghost predicate Scheduled(wakes: seq<Wake>) {
    forall i :: 0 <= i < |wakes| ==> !wakes[i].forced
  }

  /** Forced polls among the calls after the first. */
  function Forced(wakes: seq<Wake>): nat {
    if |wakes| <= 1 then 0
    else Forced(wakes[..|wakes| - 1]) + (if wakes[|wakes| - 1].forced then 1 else 0)
  }

  lemma {:induction false} ScheduledHasNoForced(wakes: seq<Wake>)
    requires Scheduled(wakes)
    ensures Forced(wakes) == 0
  {
    if |wakes| > 1 {
      ScheduledHasNoForced(wakes[..|wakes| - 1]);
    }
  }

  lemma {:induction false} DistinctTail(specs: seq<CmdSpec>)
    requires Distinct(specs) && specs != []
    ensures Distinct(specs[1..])
    ensures forall c :: c in specs[1..] ==> c.name != specs[0].name
  {
    var tail := specs[1..];
    forall i, j | 0 <= i < j < |tail|
      ensures tail[i].name != tail[j].name
    {
      assert specs[i + 1].name != specs[j + 1].name;
    }
    forall c | c in tail
      ensures c.name != specs[0].name
    {
      var i :| 0 <= i < |tail| && tail[i] == c;
      assert specs[i + 1] == c;
    }
  }

  lemma {:induction false} PrependDistinct(c: CmdSpec, tail: seq<CmdSpec>)
    requires Distinct(tail) && forall d :: d in tail ==> d.name != c.name
    ensures Distinct([c] + tail)
  {
  }

  lemma {:induction false} SelectDistinct(specs: seq<CmdSpec>, keep: CmdSpec -> bool)
    requires Distinct(specs)
    ensures Distinct(Select(specs, keep))
  {
    if specs != [] {
      DistinctTail(specs);
      SelectDistinct(specs[1..], keep);
      SelectMembers(specs[1..], keep);
      var tail := Select(specs[1..], keep);
      if keep(specs[0]) {
        PrependDistinct(specs[0], tail);
      } else {
        assert [] + tail == tail;
      }
    }
  }

  /** What is not selected is not selected under its name either. */
  lemma {:induction false} SelectNames(specs: seq<CmdSpec>, keep: CmdSpec -> bool, c: CmdSpec)
    requires Distinct(specs) && c in specs && !keep(c)
    ensures c.name !in Names(Select(specs, keep))
  {
    SelectMembers(specs, keep);
    SameNameSameSpec(specs);
    var kept := Select(specs, keep);
    assert forall i :: 0 <= i < |kept| ==> kept[i] in kept;
  }

  lemma {:induction false} SameNameSameSpec(specs: seq<CmdSpec>)
    requires Distinct(specs)
    ensures forall c, d :: c in specs && d in specs && c.name == d.name ==> c == d
  {
  }

  lemma {:induction false} IssuedProperties(next: Deadlines, specs: seq<CmdSpec>, w: Wake)
    requires Distinct(specs)
    ensures Distinct(Issued(next, specs, w))
    ensures forall c :: c in Issued(next, specs, w) <==> c in specs && (w.forced || IsDue(next, c, w.now))
    ensures forall c :: c in specs && c !in Issued(next, specs, w) ==> c.name !in Names(Issued(next, specs, w))
  {
    var keep := (c: CmdSpec) => IsDue(next, c, w.now);
    SelectDistinct(specs, keep);
    SelectMembers(specs, keep);
    forall c | c in specs && !keep(c)
      ensures c.name !in Names(Select(specs, keep))
    {
      SelectNames(specs, keep, c);
    }
  }

  /** The deadline of one command changes by its own rule alone. */
  lemma {:induction false} StepOf(next: Deadlines, specs: seq<CmdSpec>, w: Wake, c: CmdSpec)
    requires Distinct(specs) && c in specs
    ensures Lookup(Step(next, specs, w), c.name)
            == if w.forced || IsDue(next, c, w.now)
               then Some(NextDeadline(Lookup(next, c.name), c.interval, w.now))
               else Lookup(next, c.name)
  {
    IssuedProperties(next, specs, w);
    MarkDueOf(next, Issued(next, specs, w), w.now, c);
  }

  ghost predicate Runs(specs: seq<CmdSpec>, wakes: seq<Wake>, c: CmdSpec) {
    Distinct(specs) && c in specs && c.interval > 0 && wakes != [] && Forward(wakes)
  }

  /** The deadline of one command after a run, from its own rule alone. */
  function DeadlineOf(wakes: seq<Wake>, interval: Time): Option<Time> {
    if wakes == [] then None
    else
      var last := wakes[|wakes| - 1];
      var previous := DeadlineOf(wakes[..|wakes| - 1], interval);
      if last.forced || previous.None? || previous.value <= last.now
      then Some(NextDeadline(previous, interval, last.now))
      else previous
  }

  lemma {:induction false} AfterOf(specs: seq<CmdSpec>, wakes: seq<Wake>, c: CmdSpec)
    requires Distinct(specs) && c in specs
    ensures Lookup(After(specs, wakes), c.name) == DeadlineOf(wakes, c.interval)
  {
    if wakes != [] {
      var n := |wakes| - 1;
      AfterOf(specs, wakes[..n], c);
      StepOf(After(specs, wakes[..n]), specs, wakes[n], c);
    }
  }

  /** The number of the grid point a command's deadline sits on after a run. */
  function Index(wakes: seq<Wake>, interval: Time): int
    requires wakes != [] && interval > 0
  {
    var n := |wakes| - 1;
    if n == 0 then 1
    else
      var m := Index(wakes[..n], interval);
      var p := Period(wakes[0].now, interval, wakes[n].now);
      if wakes[n].forced then Max(m + 1, p + 1) else Max(m, p + 1)
  }

  lemma {:induction false} DeadlineOnGrid(wakes: seq<Wake>, interval: Time)
    requires interval > 0 && wakes != []
    ensures DeadlineOf(wakes, interval) == Some(Point(wakes[0].now, interval, Index(wakes, interval)))
  {
    var origin, n := wakes[0].now, |wakes| - 1;
    if n == 0 {
      assert DeadlineOf(wakes[..0], interval) == None;
    } else {
      var now := wakes[n].now;
      DeadlineOnGrid(wakes[..n], interval);
      var m := Index(wakes[..n], interval);
      NextDeadlineOnGrid(origin, interval, m, now);
      PointIsPast(origin, interval, m, now);
    }
  }

  lemma {:induction false} IndexBounds(wakes: seq<Wake>, interval: Time)
    requires interval > 0 && wakes != [] && Forward(wakes)
    ensures var p := Period(wakes[0].now, interval, wakes[|wakes| - 1].now);
            p + 1 <= Index(wakes, interval) <= p + 1 + Forced(wakes)
  {
    var n := |wakes| - 1;
    if n == 0 {
      PeriodIs(wakes[0].now, interval, wakes[0].now, 0);
    } else {
      IndexBounds(wakes[..n], interval);
      PeriodMonotone(wakes[0].now, interval, wakes[n - 1].now, wakes[n].now);
    }
  }

  /** Every deadline of every run, forced polls included, is a point of the grid that starts at the
      first call: forced polls move it at most one point each, and delays never shift the phase. */
  lemma {:induction false} OnGrid(specs: seq<CmdSpec>, wakes: seq<Wake>, c: CmdSpec)
    requires Runs(specs, wakes, c)
    ensures var origin, last := wakes[0].now, wakes[|wakes| - 1].now;
            && Lookup(After(specs, wakes), c.name) == Some(Point(origin, c.interval, Index(wakes, c.interval)))
            && Period(origin, c.interval, last) + 1
               <= Index(wakes, c.interval)
               <= Period(origin, c.interval, last) + 1 + Forced(wakes)
  {
    AfterOf(specs, wakes, c);
    DeadlineOnGrid(wakes, c.interval);
    IndexBounds(wakes, c.interval);
  }

  lemma {:induction false} PointIsPast(origin: Time, interval: Time, m: int, now: Time)
    requires interval > 0
    ensures Point(origin, interval, m) <= now <==> m <= Period(origin, interval, now)
  {
    var p := Period(origin, interval, now);
    if m <= p {
      PointsOrdered(origin, interval, m, p);
    } else {
      PointsOrdered(origin, interval, p + 1, m);
    }
  }

  /** With scheduled ticks only, the deadline map is a function of the first and the last tick. */
  lemma {:induction false} ClosedForm(specs: seq<CmdSpec>, wakes: seq<Wake>, c: CmdSpec)
    requires Runs(specs, wakes, c) && Scheduled(wakes)
    ensures var origin, last := wakes[0].now, wakes[|wakes| - 1].now;
            Lookup(After(specs, wakes), c.name)
            == Some(origin + c.interval * ((last - origin) / c.interval + 1))
  {
    OnGrid(specs, wakes, c);
    ScheduledHasNoForced(wakes);
  }

  /** Forced polls in the calls after the `j`-th. */
  function ForcedAfter(wakes: seq<Wake>, j: nat): nat {
    if |wakes| <= j + 1 then 0
    else ForcedAfter(wakes[..|wakes| - 1], j) + (if wakes[|wakes| - 1].forced then 1 else 0)
  }

  function PeriodAt(wakes: seq<Wake>, interval: Time, i: nat): int
    requires interval > 0 && i < |wakes|
  {
    Period(wakes[0].now, interval, wakes[i].now)
  }

  /** How many grid points a deadline is ahead of the first one past the last call. */
  function Ahead(wakes: seq<Wake>, interval: Time): int
    requires interval > 0 && wakes != []
  {
    Index(wakes, interval) - PeriodAt(wakes, interval, |wakes| - 1) - 1
  }

  /** Forced polls in the calls after the `j`-th, less the grid points passed since. */
  function Excess(wakes: seq<Wake>, interval: Time, j: nat): int
    requires interval > 0 && j < |wakes|
  {
    ForcedAfter(wakes, j) - (PeriodAt(wakes, interval, |wakes| - 1) - PeriodAt(wakes, interval, j))
  }

  lemma {:induction false} AheadStep(wakes: seq<Wake>, interval: Time)
    requires interval > 0 && |wakes| > 1
    ensures var n := |wakes| - 1;
            var passed := PeriodAt(wakes, interval, n) - PeriodAt(wakes, interval, n - 1);
            Ahead(wakes, interval)
            == Max(0, Ahead(wakes[..n], interval) + (if wakes[n].forced then 1 else 0) - passed)
  {
  }

  lemma {:induction false} ExcessStep(wakes: seq<Wake>, interval: Time, j: nat)
    requires interval > 0 && |wakes| > 1 && j < |wakes| - 1
    ensures var n := |wakes| - 1;
            var passed := PeriodAt(wakes, interval, n) - PeriodAt(wakes, interval, n - 1);
            Excess(wakes, interval, j) == Excess(wakes[..n], interval, j) + (if wakes[n].forced then 1 else 0) - passed
  {
  }

  /** No stretch at the end of a run leaves the deadline less far ahead than its excess of forced polls. */
  lemma {:induction false} AheadCoversExcess(wakes: seq<Wake>, interval: Time, j: nat)
    requires interval > 0 && j < |wakes|
    ensures Ahead(wakes, interval) >= Excess(wakes, interval, j)
    ensures Ahead(wakes, interval) >= 0
  {
    var n := |wakes| - 1;
    if n == 0 {
      PeriodIs(wakes[0].now, interval, wakes[0].now, 0);
    } else {
      AheadStep(wakes, interval);
      if j < n {
        AheadCoversExcess(wakes[..n], interval, j);
        ExcessStep(wakes, interval, j);
      }
    }
  }

  /** And some stretch explains it. */
  lemma {:induction false} AheadIsSomeExcess(wakes: seq<Wake>, interval: Time) returns (j: nat)
    requires interval > 0 && wakes != []
    ensures j < |wakes| && Ahead(wakes, interval) == Excess(wakes, interval, j)
  {
    var n := |wakes| - 1;
    if n == 0 {
      PeriodIs(wakes[0].now, interval, wakes[0].now, 0);
      j := 0;
    } else {
      AheadStep(wakes, interval);
      j := n;
      if Ahead(wakes, interval) > 0 {
        j := AheadIsSomeExcess(wakes[..n], interval);
        ExcessStep(wakes, interval, j);
      }
    }
  }

  lemma {:induction false} PointsDiffer(origin: Time, interval: Time, j: int, k: int)
    requires interval > 0 && j < k
    ensures Point(origin, interval, j) < Point(origin, interval, k)
  {
    PointsOrdered(origin, interval, j, k - 1);
    PointsOrdered(origin, interval, k - 1, k);
  }

  lemma {:induction false} AheadIffExcess(wakes: seq<Wake>, interval: Time)
    requires interval > 0 && wakes != []
    ensures Ahead(wakes, interval) == 0 <==> forall j: nat :: j < |wakes| ==> Excess(wakes, interval, j) <= 0
  {
    var j := AheadIsSomeExcess(wakes, interval);
    forall i: nat | i < |wakes|
      ensures Ahead(wakes, interval) >= 0 && Ahead(wakes, interval) >= Excess(wakes, interval, i)
    {
      AheadCoversExcess(wakes, interval, i);
    }
    assert Ahead(wakes, interval) >= Excess(wakes, interval, 0);
  }

  lemma {:induction false} PointsEqual(origin: Time, interval: Time, j: int, k: int)
    requires interval > 0 && j <= k
    ensures Point(origin, interval, j) == Point(origin, interval, k) <==> j == k
  {
    if j < k {
      PointsDiffer(origin, interval, j, k);
    }
  }

  /** In every run, forced polls included, a command's deadline has the closed form exactly when in no
      stretch at the end of the run do the forced polls outnumber the grid points passed. */
  lemma {:induction false} ClosedFormIff(specs: seq<CmdSpec>, wakes: seq<Wake>, c: CmdSpec)
    requires Runs(specs, wakes, c)
    ensures Lookup(After(specs, wakes), c.name)
            == Some(Point(wakes[0].now, c.interval, PeriodAt(wakes, c.interval, |wakes| - 1) + 1))
            <==> forall j: nat :: j < |wakes| ==> Excess(wakes, c.interval, j) <= 0
  {
    var p, index := PeriodAt(wakes, c.interval, |wakes| - 1), Index(wakes, c.interval);
    assert Lookup(After(specs, wakes), c.name) == Some(Point(wakes[0].now, c.interval, index)) && p + 1 <= index by {
      OnGrid(specs, wakes, c);
    }
    PointsEqual(wakes[0].now, c.interval, p + 1, index);
    AheadIffExcess(wakes, c.interval);
  }

  /** A forced poll keeps the closed form exactly when the command was due at that moment. */
  lemma {:induction false} ForcedKeepsClosedForm(specs: seq<CmdSpec>, wakes: seq<Wake>, now: Time, c: CmdSpec)
    requires Runs(specs, wakes, c) && Scheduled(wakes) && wakes[|wakes| - 1].now <= now
    ensures var origin := wakes[0].now;
            Lookup(After(specs, wakes + [Wake(now, true)]), c.name)
            == Some(Point(origin, c.interval, Period(origin, c.interval, now) + 1))
            <==> IsDue(After(specs, wakes), c, now)
  {
    var origin := wakes[0].now;
    var longer := wakes + [Wake(now, true)];
    assert longer[..|wakes|] == wakes;
    OnGrid(specs, wakes, c);
    ScheduledHasNoForced(wakes);
    StepOf(After(specs, wakes), specs, Wake(now, true), c);
    var m := Index(wakes, c.interval);
    var p := Period(origin, c.interval, now);
    NextDeadlineOnGrid(origin, c.interval, m, now);
    if m <= p {
      PointsOrdered(origin, c.interval, m, p);
    } else {
      PointsOrdered(origin, c.interval, p + 1, m);
      PointsOrdered(origin, c.interval, p + 1, m + 1);
    }
  }

  /** A forced poll half-way through a 30 s period costs the next scheduled one. */
  lemma {:induction false} ForcedPollSkipsADeadline()
    ensures var c := CmdSpec(ShowVersion, "show version", None, 30);
            var wakes := [Wake(0, false), Wake(15, true)];
            !IsDue(After([c], wakes), c, 30) && IsDue(After([c], wakes[..1]), c, 30)
  {
    var c := CmdSpec(ShowVersion, "show version", None, 30);
    var wakes := [Wake(0, false), Wake(15, true)];
    assert wakes[..1] == [Wake(0, false)];
    OnGrid([c], wakes, c);
    OnGrid([c], wakes[..1], c);
    assert Index(wakes[..1], 30) == 1;
    PeriodIs(0, 30, 15, 0);
  }

  /** After scheduled ticks, a command is due exactly when a grid point has passed since the last one. */
  lemma {:induction false} DueOnGrid(specs: seq<CmdSpec>, wakes: seq<Wake>, c: CmdSpec, now: Time)
    requires Runs(specs, wakes, c) && Scheduled(wakes) && wakes[|wakes| - 1].now <= now
    ensures var origin, last := wakes[0].now, wakes[|wakes| - 1].now;
            IsDue(After(specs, wakes), c, now)
            <==> Period(origin, c.interval, last) < Period(origin, c.interval, now)
  {
    OnGrid(specs, wakes, c);
    ScheduledHasNoForced(wakes);
    PointIsPast(wakes[0].now, c.interval, Index(wakes, c.interval), now);
  }

  /** A command is issued at a tick exactly when a point of its grid has passed since the one before. */
  lemma {:induction false} IssuedExactlyOnGridPoints(specs: seq<CmdSpec>, wakes: seq<Wake>, c: CmdSpec, k: nat)
    requires Runs(specs, wakes, c) && Scheduled(wakes) && k < |wakes|
    ensures k == 0 ==> c in IssuedAt(specs, wakes, k)
    ensures k > 0 ==>
      (c in IssuedAt(specs, wakes, k)
       <==> Period(wakes[0].now, c.interval, wakes[k - 1].now) < Period(wakes[0].now, c.interval, wakes[k].now))
    ensures k > 0 ==>
      (c in IssuedAt(specs, wakes, k)
       <==> exists j :: wakes[k - 1].now < Point(wakes[0].now, c.interval, j) <= wakes[k].now)
  {
    IssuedProperties(After(specs, wakes[..k]), specs, wakes[k]);
    if k > 0 {
      DueOnGrid(specs, wakes[..k], c, wakes[k].now);
      PointBetween(wakes[0].now, c.interval, wakes[k - 1].now, wakes[k].now);
    }
  }

  /** When one interval divides another, every tick that issues the slow command issues the fast one
      too, so aligned modules share their batches however the ticks drift. */
  lemma {:induction false} AlignedModulesShareBatches(specs: seq<CmdSpec>, wakes: seq<Wake>, fast: CmdSpec,
                                                      slow: CmdSpec, factor: int, k: nat)
    requires Runs(specs, wakes, fast) && Runs(specs, wakes, slow) && Scheduled(wakes) && k < |wakes|
    requires factor > 0 && slow.interval == fast.interval * factor
    requires slow in IssuedAt(specs, wakes, k)
    ensures fast in IssuedAt(specs, wakes, k)
  {
    IssuedExactlyOnGridPoints(specs, wakes, slow, k);
    IssuedExactlyOnGridPoints(specs, wakes, fast, k);
    if k > 0 {
      CoarserPeriod(wakes[0].now, fast.interval, factor, slow.interval, wakes[k - 1].now, wakes[k].now);
    }
  }

  /** Commands of equal intervals keep equal deadlines through every run, forced polls included. */
  lemma {:induction false} EqualIntervalsStayTogether(specs: seq<CmdSpec>, wakes: seq<Wake>, c: CmdSpec, d: CmdSpec)
    requires Distinct(specs) && c in specs && d in specs && c.interval == d.interval
    ensures Lookup(After(specs, wakes), c.name) == Lookup(After(specs, wakes), d.name)
  {
    AfterOf(specs, wakes, c);
    AfterOf(specs, wakes, d);
  }

  // --- Counting issues --------------------------------------------------------------------------

  /** Which of the calls of a run issue a command. */
  function IssueFlags(specs: seq<CmdSpec>, wakes: seq<Wake>, c: CmdSpec): seq<bool> {
    seq(|wakes|, k requires 0 <= k < |wakes| => c in IssuedAt(specs, wakes, k))
  }

  /** The flags set from position `lo` (inclusive) to `hi` (exclusive). */
  function Count(flags: seq<bool>, lo: nat, hi: nat): (n: nat)
    requires lo <= hi <= |flags|
    ensures n <= hi - lo
    decreases hi - lo
  {
    if lo == hi then 0 else Count(flags, lo, hi - 1) + (if flags[hi - 1] then 1 else 0)
  }

  function GapBefore(wakes: seq<Wake>, k: nat): Time
    requires 0 < k < |wakes|
  {
    wakes[k].now - wakes[k - 1].now
  }

  /** No two consecutive ticks further apart than `gap`. */
  ghost predicate GapsWithin(wakes: seq<Wake>, gap: Time) {
    forall k: nat :: 0 < k < |wakes| ==> GapBefore(wakes, k) <= gap
  }

  /** The flags of a command follow its grid. */
  ghost predicate FlagsFollowGrid(flags: seq<bool>, wakes: seq<Wake>, interval: Time) {
    && interval > 0 && |flags| == |wakes| > 0 && flags[0]
    && forall k :: 0 < k < |wakes| ==>
         (flags[k] <==> Period(wakes[0].now, interval, wakes[k - 1].now) < Period(wakes[0].now, interval, wakes[k].now))
  }

  lemma {:induction false} IssueFlagsFollowGrid(specs: seq<CmdSpec>, wakes: seq<Wake>, c: CmdSpec)
    requires Runs(specs, wakes, c) && Scheduled(wakes)
    ensures FlagsFollowGrid(IssueFlags(specs, wakes, c), wakes, c.interval)
  {
    forall k | 0 <= k < |wakes|
      ensures k == 0 ==> c in IssuedAt(specs, wakes, k)
      ensures k > 0 ==>
        (c in IssuedAt(specs, wakes, k)
         <==> Period(wakes[0].now, c.interval, wakes[k - 1].now) < Period(wakes[0].now, c.interval, wakes[k].now))
    {
      IssuedExactlyOnGridPoints(specs, wakes, c, k);
    }
  }

  lemma {:induction false} CountInWindow(flags: seq<bool>, wakes: seq<Wake>, interval: Time, i: nat, j: nat)
    requires FlagsFollowGrid(flags, wakes, interval) && Forward(wakes) && i <= j < |wakes|
    ensures var origin := wakes[0].now;
            var points := Period(origin, interval, wakes[j].now) - Period(origin, interval, wakes[i].now);
            && Count(flags, i + 1, j + 1) <= points
            && (GapsWithin(wakes, interval) ==> Count(flags, i + 1, j + 1) == points)
    decreases j - i
  {
    if i < j {
      CountInWindow(flags, wakes, interval, i, j - 1);
      PeriodMonotone(wakes[0].now, interval, wakes[j - 1].now, wakes[j].now);
      if GapsWithin(wakes, interval) {
        assert GapBefore(wakes, j) <= interval;
        PeriodAdvancesByOne(wakes[0].now, interval, wakes[j - 1].now, wakes[j].now);
      }
    }
  }

  lemma {:induction false} CountSplit(flags: seq<bool>, lo: nat, mid: nat, hi: nat)
    requires lo <= mid <= hi <= |flags|
    ensures Count(flags, lo, hi) == Count(flags, lo, mid) + Count(flags, mid, hi)
    decreases hi - mid
  {
    if mid < hi {
      CountSplit(flags, lo, mid, hi - 1);
    }
  }

  /** In the ticks after the `i`-th up to the `j`-th, a command is issued at most once per grid point
      passed, and exactly once per grid point when no gap exceeds its interval. */
  lemma {:induction false} IssuesInWindow(specs: seq<CmdSpec>, wakes: seq<Wake>, c: CmdSpec, i: nat, j: nat)
    requires Runs(specs, wakes, c) && Scheduled(wakes) && i <= j < |wakes|
    ensures var origin := wakes[0].now;
            var issues := Count(IssueFlags(specs, wakes, c), i + 1, j + 1);
            var points := Period(origin, c.interval, wakes[j].now) - Period(origin, c.interval, wakes[i].now);
            issues <= points && (GapsWithin(wakes, c.interval) ==> issues == points)
  {
    IssueFlagsFollowGrid(specs, wakes, c);
    CountInWindow(IssueFlags(specs, wakes, c), wakes, c.interval, i, j);
  }

  lemma {:induction false} CountOverRun(flags: seq<bool>, wakes: seq<Wake>, interval: Time)
    requires FlagsFollowGrid(flags, wakes, interval) && Forward(wakes)
    ensures var points := Period(wakes[0].now, interval, wakes[|wakes| - 1].now);
            && Count(flags, 0, |wakes|) <= 1 + points
            && (GapsWithin(wakes, interval) ==> Count(flags, 0, |wakes|) == 1 + points)
  {
    CountSplit(flags, 0, 1, |wakes|);
    CountInWindow(flags, wakes, interval, 0, |wakes| - 1);
    PeriodIs(wakes[0].now, interval, wakes[0].now, 0);
  }

  /** The total over a run is bounded by the number of whole intervals elapsed, whatever the tick rate. */
  lemma {:induction false} IssueRate(specs: seq<CmdSpec>, wakes: seq<Wake>, c: CmdSpec)
    requires Runs(specs, wakes, c) && Scheduled(wakes)
    ensures var issues := Count(IssueFlags(specs, wakes, c), 0, |wakes|);
            var elapsed := wakes[|wakes| - 1].now - wakes[0].now;
            && issues <= 1 + elapsed / c.interval
            && (GapsWithin(wakes, c.interval) ==> issues == 1 + elapsed / c.interval)
  {
    IssueFlagsFollowGrid(specs, wakes, c);
    CountOverRun(IssueFlags(specs, wakes, c), wakes, c.interval);
  }
}
