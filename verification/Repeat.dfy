/** Collapsing repeated identical failures into a first line and periodic summaries. */
module Repeat {
  import opened Basics

  const SUMMARY_EVERY: nat := 10

  datatype Tracker = Tracker(last: string, count: nat, since: Time, sinceLastReport: nat)

  const FRESH := Tracker("", 0, 0, 0)

  /** A log line; the original returns "" for `Quiet`. */
  datatype Line =
    | Quiet
    | First(text: string)
    | StillFailing(text: string, attempts: nat, over: Time)
    | Recovered(attempts: nat, over: Time)

  function Observing(t: Tracker, msg: string, now: Time): (Tracker, Line) {
    if msg != t.last then
      (Tracker(msg, 1, now, 0), if msg == "" then Quiet else First(msg))
    else
      var t' := t.(count := t.count + 1, sinceLastReport := t.sinceLastReport + 1);
      if t'.sinceLastReport < SUMMARY_EVERY then (t', Quiet)
      else (t'.(sinceLastReport := 0), StillFailing(msg, t'.count, now - t.since))
  }

  function Recovering(t: Tracker, now: Time): (Tracker, Line) {
    if t.count == 0 then (t, Quiet)
    else (Tracker("", 0, t.since, 0), Recovered(t.count, now - t.since))
  }

  class RepeatTracker {
    var last: string
    var count: nat
    var since: Time
    var sinceLastReport: nat

    ghost function View(): Tracker
      reads this
    {
      Tracker(last, count, since, sinceLastReport)
    }

    constructor ()
      ensures View() == FRESH
    {
      last, count, since, sinceLastReport := "", 0, 0, 0;
    }

    method Observe(msg: string, now: Time) returns (line: Line)
      modifies this
      ensures (View(), line) == Observing(old(View()), msg, now)
    {
      if msg != last {
        last := msg;
        count := 1;
        since := now;
        sinceLastReport := 0;
        return if msg == "" then Quiet else First(msg);
      }
      count := count + 1;
      sinceLastReport := sinceLastReport + 1;
      if sinceLastReport < SUMMARY_EVERY {
        return Quiet;
      }
      sinceLastReport := 0;
      return StillFailing(msg, count, now - since);
    }

    method Recover(now: Time) returns (line: Line)
      modifies this
      ensures (View(), line) == Recovering(old(View()), now)
    {
      if count == 0 {
        return Quiet;
      }
      line := Recovered(count, now - since);
      last := "";
      count := 0;
      sinceLastReport := 0;
    }
  }

  // --- Traces -----------------------------------------------------------------------------------

  datatype Event = Failure(msg: string, at: Time) | Success(at: Time)

  function React(t: Tracker, e: Event): (Tracker, Line) {
    match e
    case Failure(msg, at) => Observing(t, msg, at)
    case Success(at) => Recovering(t, at)
  }

  function Track(events: seq<Event>): Tracker {
    if events == [] then FRESH
    else React(Track(events[..|events| - 1]), events[|events| - 1]).0
  }

  /** What is logged for the last event of a trace. */
  function LastLine(events: seq<Event>): Line
    requires events != []
  {
    React(Track(events[..|events| - 1]), events[|events| - 1]).1
  }

  /** Every caller passes the text of an error, which is never empty. */
  ghost predicate NoEmptyMessage(events: seq<Event>) {
    forall i :: 0 <= i < |events| && events[i].Failure? ==> events[i].msg != ""
  }

  lemma {:induction false} OneMoreEvent(events: seq<Event>, e: Event)
    requires NoEmptyMessage(events) && (e.Failure? ==> e.msg != "")
    ensures Track(events + [e]) == React(Track(events), e).0
    ensures NoEmptyMessage(events + [e])
  {
    assert (events + [e])[..|events|] == events;
  }

  /** The length of the run of equal failures a trace ends with. */
  function Streak(events: seq<Event>): nat {
    var n := |events|;
    if n == 0 || events[n - 1].Success? then 0
    else if n > 1 && events[n - 2].Failure? && events[n - 2].msg == events[n - 1].msg
    then 1 + Streak(events[..n - 1])
    else 1
  }

  /** The instant the run of equal failures at the end of a trace began. */
  function StreakStart(events: seq<Event>): Time
    requires Streak(events) > 0
  {
    if Streak(events) == 1 then events[|events| - 1].at
    else StreakStart(events[..|events| - 1])
  }

  lemma {:induction false} TrackerFollowsStreak(events: seq<Event>)
    requires NoEmptyMessage(events)
    ensures var t, n := Track(events), Streak(events);
            && t.count == n
            && (n == 0 ==> t.last == "" && t.sinceLastReport == 0)
            && (n > 0 ==> t.last == events[|events| - 1].msg
                          && t.since == StreakStart(events)
                          && t.sinceLastReport == (n - 1) % SUMMARY_EVERY)
  {
    var n := |events|;
    if n > 0 {
      var before := events[..n - 1];
      TrackerFollowsStreak(before);
      assert n > 1 ==> before[|before| - 1] == events[n - 2];
    }
  }

  /** What a trace must log at its last event: the first failure of a run, every tenth repetition
      with the number of attempts so far, and a recovery with the length of the run it ends. */
  function Expected(events: seq<Event>): Line
    requires events != []
  {
    var before, e, n := events[..|events| - 1], events[|events| - 1], Streak(events);
    match e
    case Failure(msg, at) =>
      if n == 1 then First(msg)
      else if (n - 1) % SUMMARY_EVERY == 0 then StillFailing(msg, n, at - StreakStart(events))
      else Quiet
    case Success(at) =>
      if Streak(before) == 0 then Quiet
      else Recovered(Streak(before), at - StreakStart(before))
  }

  lemma {:induction false} LinesAreExpected(events: seq<Event>)
    requires events != [] && NoEmptyMessage(events)
    ensures LastLine(events) == Expected(events)
  {
    var n := |events|;
    var before := events[..n - 1];
    TrackerFollowsStreak(before);
    assert n > 1 ==> before[|before| - 1] == events[n - 2];
  }

  /** An empty message would start a run in silence: this is why callers may not pass one. */
  lemma {:induction false} FirstFailureLoggedUnlessEmpty(events: seq<Event>, msg: string, at: Time)
    requires NoEmptyMessage(events)
    requires Streak(events + [Failure(msg, at)]) == 1
    ensures LastLine(events + [Failure(msg, at)]) != Quiet <==> msg != ""
  {
    var longer := events + [Failure(msg, at)];
    assert longer[..|events|] == events;
    TrackerFollowsStreak(events);
    if events != [] {
      assert longer[|longer| - 2] == events[|events| - 1];
    }
  }

  // --- Volume -----------------------------------------------------------------------------------

  /** The lengths of the maximal runs of equal failures in a trace, in order. */
  function RunLengths(events: seq<Event>): (lengths: seq<nat>)
    ensures Streak(events) > 0 ==> lengths != [] && lengths[|lengths| - 1] == Streak(events)
  {
    if events == [] then []
    else
      var before, n := RunLengths(events[..|events| - 1]), Streak(events);
      if n == 0 then before
      else if n == 1 then before + [1]
      else before[..|before| - 1] + [n]
  }

  function LinesOfRuns(lengths: seq<nat>): nat {
    if lengths == [] then 0
    else
      var n := lengths[|lengths| - 1];
      LinesOfRuns(lengths[..|lengths| - 1]) + (if n == 0 then 0 else 1 + (n - 1) / SUMMARY_EVERY)
  }

  function FailureLines(events: seq<Event>): nat {
    if events == [] then 0
    else
      FailureLines(events[..|events| - 1])
      + (if LastLine(events).First? || LastLine(events).StillFailing? then 1 else 0)
  }

  /** A run of n equal failures costs 1 + (n-1)/10 lines, and nothing else is logged for failures. */
  lemma {:induction false} FailureLinesPerRun(events: seq<Event>)
    requires NoEmptyMessage(events)
    ensures FailureLines(events) == LinesOfRuns(RunLengths(events))
  {
    if events != [] {
      var before := events[..|events| - 1];
      FailureLinesPerRun(before);
      LinesAreExpected(events);
      var lengths, n := RunLengths(before), Streak(events);
      if n == 1 {
        assert (lengths + [1])[..|lengths|] == lengths;
      } else if n > 1 {
        var init := lengths[..|lengths| - 1];
        assert (init + [n])[..|init|] == init;
        OneMoreRepetition(n);
      }
    }
  }

  lemma {:induction false} OneMoreRepetition(n: nat)
    requires n > 1
    ensures (n - 1) / SUMMARY_EVERY
            == (n - 2) / SUMMARY_EVERY + (if (n - 1) % SUMMARY_EVERY == 0 then 1 else 0)
  {
  }
}
