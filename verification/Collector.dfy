/** The per-switch record and the poll that updates it in place. */
module Collector {
  import opened Basics
  import opened Catalogue
  import opened Schedule
  import opened Repeat
  import opened Eapi
  import opened Poll
  import opened Replies

  function Restrict<K, V>(m: map<K, V>, keys: set<K>): map<K, V> {
    map k | k in m && k in keys :: m[k]
  }

  lemma {:induction false} OverlayStep<K, V>(base: map<K, V>, staged: map<K, V>, done: set<K>, k: K)
    ensures base + Restrict(staged, done + {k})
            == if k in staged then (base + Restrict(staged, done))[k := staged[k]]
               else base + Restrict(staged, done)
  {
  }

  class SwitchData {
    const specs: seq<CmdSpec>
    const parser: Parser
    const tracker: RepeatTracker

    var nextDue: map<Command, Time>
    var lastSuccess: Option<Time>
    var lastAttempt: Option<Time>
    var scrapeErr: Option<Failure>
    var commandErrors: Option<map<Command, Failure>>
    var commandLastSuccess: map<Command, Time>
    var values: map<Command, Value>

    ghost function View(): SwitchState
      reads this, tracker
    {
      SwitchState(nextDue, lastSuccess, lastAttempt, scrapeErr, commandErrors,
                  commandLastSuccess, values, tracker.View())
    }

    constructor (specs: seq<CmdSpec>, parser: Parser)
      ensures this.specs == specs && this.parser == parser && fresh(tracker)
      ensures View() == INITIAL
    {
      this.specs := specs;
      this.parser := parser;
      this.tracker := new RepeatTracker();
      nextDue, commandLastSuccess, values := map[], map[], map[];
      lastSuccess, lastAttempt, scrapeErr, commandErrors := None, None, None, None;
    }

    method DueNow(now: Time) returns (out: seq<CmdSpec>)
      ensures out == Due(nextDue, specs, now)
    {
      out := [];
      for i := 0 to |specs|
        invariant out + Due(nextDue, specs[i..], now) == Due(nextDue, specs, now)
      {
        var c := specs[i];
        assert specs[i..][0] == c && specs[i..][1..] == specs[i + 1..];
        if c.name in nextDue && now < nextDue[c.name] {
          continue;
        }
        out := out + [c];
      }
    }

    method MarkIssued(issued: seq<CmdSpec>, now: Time)
      modifies this`nextDue
      ensures nextDue == MarkDue(old(nextDue), issued, now)
    {
      for i := 0 to |issued|
        invariant nextDue == MarkDue(old(nextDue), issued[..i], now)
      {
        var c := issued[i];
        assert issued[..i + 1][..i] == issued[..i];
        if c.interval <= 0 {
          nextDue := nextDue[c.name := now];
          continue;
        }
        if c.name !in nextDue {
          nextDue := nextDue[c.name := now + c.interval];
          continue;
        }
        var next := nextDue[c.name] + c.interval;
        if next <= now {
          var late := now - next;
          next := now + (c.interval - late % c.interval);
        }
        nextDue := nextDue[c.name := next];
      }
      assert issued[..|issued|] == issued;
    }

    method SetError(issued: seq<CmdSpec>, f: Failure, clock: Time) returns (line: Line)
      modifies this, tracker
      ensures (View(), line) == SetErrorOn(old(View()), issued, f, clock)
    {
      scrapeErr := Some(f);
      var errors: map<Command, Failure> := map[];
      for i := 0 to |issued|
        invariant errors == map n | n in Names(issued[..i]) :: f
      {
        assert issued[..i + 1] == issued[..i] + [issued[i]];
        errors := errors[issued[i].name := f];
      }
      assert issued[..|issued|] == issued;
      commandErrors := Some(errors);
      line := tracker.Observe(Describe(f), clock);
    }

    /** Copy the staged values of the commands that succeeded into the record. */
    method Apply(issued: seq<CmdSpec>, results: map<Command, Result<Value, Failure>>, now: Time)
      requires results.Keys == Names(issued)
      modifies this`values, this`commandLastSuccess
      ensures values == old(values) + ValuesOf(results)
      ensures commandLastSuccess == old(commandLastSuccess) + StampsOf(results, now)
    {
      ghost var staged, stamps := ValuesOf(results), StampsOf(results, now);
      for i := 0 to |issued|
        invariant values == old(values) + Restrict(staged, Names(issued[..i]))
        invariant commandLastSuccess == old(commandLastSuccess) + Restrict(stamps, Names(issued[..i]))
      {
        assert issued[..i + 1] == issued[..i] + [issued[i]];
        var name := issued[i].name;
        assert Names(issued[..i + 1]) == Names(issued[..i]) + {name};
        OverlayStep(old(values), staged, Names(issued[..i]), name);
        OverlayStep(old(commandLastSuccess), stamps, Names(issued[..i]), name);
        if results[name].Ok? {
          values := values[name := results[name].value];
          commandLastSuccess := commandLastSuccess[name := now];
        }
      }
      assert issued[..|issued|] == issued;
      assert Restrict(staged, Names(issued)) == staged && Restrict(stamps, Names(issued)) == stamps;
    }

    /** Failures of commands that were not issued are kept, the others replaced. */
    method MergeErrors(issued: seq<CmdSpec>, errors: map<Command, Failure>)
      modifies this`commandErrors
      ensures commandErrors
              == Some(errors + (if old(commandErrors).None? then map[] else old(commandErrors).value - Names(issued)))
    {
      var merged := errors;
      if commandErrors.Some? {
        merged := merged + (commandErrors.value - Names(issued));
      }
      assert errors + map[] == errors;
      commandErrors := Some(merged);
    }

    method Commit(issued: seq<CmdSpec>, results: map<Command, Result<Value, Failure>>, now: Time, clock: Time)
      returns (line: Line)
      requires results.Keys == Names(issued)
      modifies this, tracker
      ensures (View(), line) == CommitOn(old(View()), issued, results, now, clock)
    {
      var errors := ErrorsOf(results);
      if errors != map[] {
        line := tracker.Observe(FailureSummary(issued, errors), clock);
      } else {
        line := tracker.Recover(clock);
      }
      Apply(issued, results, now);
      MergeErrors(issued, errors);
      scrapeErr := None;
      lastSuccess := Some(now);
    }

    /** Stage every command's result; the switch record is not touched. */
    method Gather(client: Client, issued: seq<CmdSpec>) returns (a: Answers)
      modifies client, client.cred, client.stats
      ensures (client.View(), a) == GatherOn(client.Outside(), parser, old(client.View()), issued)
      ensures Fits(a, issued)
      ensures client.badUrl.None? ==> ByReply(client.Outside(), old(client.View()), client.View(), issued, a)
    {
      if client.badUrl.None? {
        GatherByReply(client.Outside(), parser, client.View(), issued);
      }
      var r := client.Run(Clis(issued));
      var raws: seq<Result<Raw, Failure>>;
      var batchErr := None;
      if r.Ok? && |r.value| == |issued| {
        raws := Succeeding(r.value);
      } else {
        var f := if r.Err? then Request(r.error) else ResultCount(|issued|, |r.value|);
        if !WorthRetrying(f) {
          return Refused(f);
        }
        batchErr := Some(f);
        raws := OneByOne(client, issued);
      }
      a := Answered(batchErr, ParseAll(parser, issued, raws));
    }

    method OneByOne(client: Client, issued: seq<CmdSpec>) returns (raws: seq<Result<Raw, Failure>>)
      modifies client, client.cred, client.stats
      ensures (client.View(), raws) == OneByOneOn(client.Outside(), old(client.View()), issued)
    {
      raws := [];
      for i := 0 to |issued|
        invariant (client.View(), raws) == OneByOneOn(client.Outside(), old(client.View()), issued[..i])
      {
        assert issued[..i + 1][..i] == issued[..i];
        var r := client.Run([issued[i].cli]);
        if r.Err? {
          raws := raws + [Err(Request(r.error))];
        } else if |r.value| != 1 {
          raws := raws + [Err(NotOneResult(|r.value|))];
        } else {
          raws := raws + [Ok(r.value[0])];
        }
      }
      assert issued[..|issued|] == issued;
    }

    method CollectIssued(client: Client, issued: seq<CmdSpec>, now: Time, clock: Readings) returns (line: Line)
      modifies this, tracker, client, client.cred, client.stats
      ensures (client.View(), View(), line)
              == CollectOn(client.Outside(), parser, old(client.View()), old(View()), issued, now, clock)
    {
      MarkIssued(issued, now);
      var a := Gather(client, issued);
      line := Settle(issued, a, now, clock);
    }

    /** Record what a poll brought back. */
    method Settle(issued: seq<CmdSpec>, a: Answers, now: Time, clock: Readings) returns (line: Line)
      requires Fits(a, issued)
      modifies this, tracker
      ensures (View(), line) == SettleOn(old(View()), issued, a, now, clock)
    {
      if a.Refused? {
        line := SetError(issued, a.err, clock.logged);
        return;
      }
      lastAttempt := Some(clock.attempted);
      var succeeded := set n | n in a.results && a.results[n].Ok?;
      if succeeded == {} {
        var reason := if a.batchErr.None? then NothingUsable else a.batchErr.value;
        line := SetError(issued, reason, clock.logged);
        return;
      }
      line := Commit(issued, a.results, now, clock.logged);
    }

    /** A forced poll of every command, due or not. */
    method Collect(client: Client, now: Time, clock: Readings) returns (line: Line)
      modifies this, tracker, client, client.cred, client.stats
      ensures (client.View(), View(), line)
              == CollectOn(client.Outside(), parser, old(client.View()), old(View()), specs, now, clock)
    {
      line := CollectIssued(client, specs, now, clock);
    }

    /** What the poll loop calls on every tick. */
    method CollectDue(client: Client, now: Time, clock: Readings) returns (line: Line)
      modifies this, tracker, client, client.cred, client.stats
      ensures (client.View(), View(), line)
              == CollectDueOn(client.Outside(), parser, old(client.View()), old(View()), specs, now, clock)
    {
      var issued := DueNow(now);
      if |issued| == 0 {
        return Quiet;
      }
      line := CollectIssued(client, issued, now, clock);
    }
  }
}
