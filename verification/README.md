# arex: a model of the poll engine, what it renders, and the rotations beside it

arex polls Arista switches over eAPI and renders what it holds as Prometheus metrics. This project models, in
Dafny, the parts of it whose correctness depends on history: when each command is issued, what one poll does to the
per-switch record, how data ages out of a scrape, how requests are counted, and how passwords and certificates
rotate under a running process. It proves properties of that model over every input, run and interleaving.

`dafny verify dfyconfig.toml` checks everything.

## How it is built

State that the original updates in place is a class (`SwitchData`, `RepeatTracker`, `Client`, `Stats`, `Credential`,
`BasicAuth`, `Certificate`, `Checker`), and its loops are loops. Every method is proved against a specification
function on values (`CollectOn`, `Observing`, `RunOn`, `AllowOn`, `GetOn`, ...), and the theorems are about those
functions, so each holds of the objects. Each specification function is tied in turn to what goes in and comes out of
the process: a call to the replies and the secret file (`RunReturns`, `RunGetsIn`), a poll to the reply that settles it
(`PollByReply`), a scrape to the polls behind it and to the outputs it holds (`HealthByHistory`, `ScrapeShows`). What lies outside the process is an arbitrary function or an arbitrary list
of events: the switch's reply to the n-th request (`World.wire`), the n-th read of a secret file (`World.file`), the
decoder of each command (`Parser`), the clock readings, the random draws, and the interleaving of concurrent calls.
Durations and instants are integers in nanoseconds; a zero time or a nil map is `None`.

| file | content |
|---|---|
| Basics, Grid, Text | vocabulary; the arithmetic of periods; decimal numbers and joined lists |
| Catalogue, Config | commands, collect groups, intervals, and the command list that follows from a configuration |
| Schedule, Ticker | deadlines, the grid they stay on, how often each command is issued; the ticks of a poll loop |
| Repeat | suppression of repeated failure messages |
| Secret, Eapi | credentials, the client with its retry after a rotation, and the request counters |
| Poll, Replies, Collector | one poll: specification, what it makes of the replies it gets, and the object that performs it |
| History, Batch, Engine | the record as a function of the polls behind it; batch against single requests; whole runs |
| Render, Shown, Freshness | staleness gates and filters; what a scrape shows, sample by sample; how old data gets between scheduler and renderer |
| Offset, Target, Handler | start offsets; target names; the store and the answer to a request for metrics |
| ScrapeAuth, Certificate | rotation of the scrape password and of the certificate, under any interleaving of requests and writes |
| Health | liveness and readiness |

Every lemma switches automatic induction off; proofs by induction call themselves.

## Where code and documentation differ

The model follows the code. Each entry names the exact condition and an input that fails.

- `LastAttempt` is said to move whatever the outcome of a poll (internal/collector/collector.go:38-41, 773). A
  transport or HTTP failure returns before it does (lines 537-541). `ClocksByHistory` states what it is;
  `CyclingByHistory`, `RefusedPollsEndLiveness` and `RejectedCredentialsLeaveNoAttempt` state the consequence for the
  liveness probe.
- `setError` rebuilds the failures from the commands of the failed poll (lines 803-806) and so forgets those of
  other commands, which a successful poll keeps (616-627). `CommandErrorsAreStandingFailures` gives the exact
  condition for a failure to be on record, `FailureForgottenInARun` a run of the engine that loses one.
- Labels are said always to resolve (internal/metrics/handler.go:30). `LabelResolvesUnlessAnEarlierHost` says exactly
  when one does, `LabelShadowedByHost` shows one that does not.
- A group is said to run on whichever tick comes first once its interval is over, 45 s on a 30 s poll every 60 s
  (docs/configuration.md:123-125). In every run of a poll loop that rule holds exactly for intervals that are a multiple
  of the tick, provided the first poll does not put the second tick out of phase, and so does the weaker one that a
  group is never polled sooner than its interval: `IssuedAsDocumentedIff`. `FortyFiveSecondModule` is the documented
  example, with gaps of 60 s and 30 s; `SlowFirstPollShortensAGap` a 60 s group polled after 30 s because the ticker
  starts only when the first poll has returned (internal/collector/collector.go:758-760). A first poll shorter than a
  tick keeps phase (`ShortFirstPollInPhase`).
- Three intervals are said to tolerate two missed polls (internal/metrics/collector.go:265-267). A poll commits only
  after its replies, under the instant of its tick, so the age also grows while the next poll is in flight, and the
  first gap of a loop is longer by the first poll. With `first` for that gap and `late` for the longest time from a tick
  to the commit of its poll, m misses are tolerated in every run of a poll loop exactly when the age they allow plus
  `late` fits the limit (`ToleratesIff`), and likewise for ticks that drift within bounds (`ToleratesDriftingIff`).
  Under the default limit two are tolerated only by polls that take no time, and then exactly when three intervals are a
  whole number of ticks (`TwoMissesToleratedIff`). `TwoMissesOffGridGoStale`, `TwoMissesGoStaleInFlight` and
  `TwoMissesAfterSlowStartGoStale` are the failing inputs. One missed poll is tolerated, however ticks drift, when a gap
  and the time of a poll fit into one interval (`OneMissStaysFresh`).
- A forced `Collect` pushes deadlines that have not been reached, so the next scheduled poll of the command can be
  skipped. `ClosedFormIff` says for every run with forced polls when a deadline is back in step, `ForcedKeepsClosedForm`
  when a single one leaves it there, `ForcedPollSkipsADeadline` shows one that does not.
- Counted requests are meant to be those made (internal/eapi/stats.go:79-80). One that cannot be built, because the
  host makes no URL, is counted too, and as a success (internal/eapi/client.go:230-241). Counted equals sent exactly
  when the URL parses: `CountedIsSentIffBuildable`; `UnbuildableIsCountedAsSuccess` is the failing call.
- A call with one command is said to be a retry because the command set is larger than one
  (internal/eapi/stats.go:126-131). With intervals per group a tick can issue a single command, and its batch is
  counted as a retry: `LoneBatchCountsAsRetry` says exactly when, `FailureForgottenInARun` shows such a tick.
- Re-reads of the scrape password are claimed under a lock, at least 30 s apart, but the file is read and the password
  swapped outside it. `NeverGoesBackIff` says exactly when memory never returns to an older version of the file,
  `OverlappingReadsCanGoBack` shows two slow re-reads after which it has.
- Certificate checks are due at most every 30 s (internal/listen/tls.go:42-47), but the due check and the marking are
  separate sections: any number of handshakes can pass one before the first marks (`ChecksCanPileUp`). Only those
  overlapping checks come on top of one per 30 s (`ChecksAreThrottled`).
- A renewed certificate is said to reach the first handshake that comes an interval later (tls.go:44-46).
  `RenewalFailsIff` says exactly when a handshake after 30 s is not served with it; `OverlappingLoadsServeOld` is a run
  of two overlapping handshakes, no load disturbed, in which the old pair is installed over the new one.
- A write between the read and the stat of a load files the old pair under the new stamp. `CheckServesTheDisk` says
  exactly when a due check is fooled by that, `DisturbedLoad` and `WriteDuringLoadSticks` show that it lasts while the
  files stay, `NextStampRecovers` that the next change of the stamp ends it.

## Model

| member | source | states |
|---|---|---|
| `Config.ResolveInterval` | config/module.go:143-152 | the slower of the poll interval and the interval written in the file, or the group's default where none is written |
| `Config.ValidateCollect` | config/config.go:423-441 | accepts exactly the blocks with known keys and no interval below the poll interval, and otherwise names an offending key |
| `Config.EffectiveCollect` | config/config.go:398-419 | switch entries replace defaults key by key, disabled groups drop out, intervals are resolved |
| `Config.AppendGroup` | internal/collector/collector.go:464-484 | an enabled group adds its commands in order, a disabled one nothing |
| `Config.CommandsFor` | internal/collector/collector.go:460-487 | builds the list that `CommandList` characterizes |
| `Config.WantedSpecs` | internal/collector/collector.go:460-487 | a command is listed exactly when its group is enabled in the merged blocks, at the explicit interval or the resolved default |
| `Config.CommandList` | internal/collector/collector.go:460-487 | for all validated blocks: `show version` first at exactly the poll interval, distinct names, the fixed order whatever the map order, exactly the enabled groups' commands, no interval below the poll interval |
| `Catalogue.ScopedMeans` | internal/collector/collector.go:439-453 | a scope goes in after "show interfaces" of the three interface commands and changes no other; no scope changes nothing |
| `Catalogue.LabelIsInjective` | internal/collector/collector.go:283-288 | no two commands share a label |
| `Config.Schedule` | internal/collector/collector.go:224-237 | one entry per run of commands of one group |
| `Config.ScheduleListsEachGroupOnce` | internal/collector/collector.go:224-237 | that is every enabled group exactly once, in issue order, because a group's commands stay together |
| `Schedule.MarkDueOf` | internal/collector/collector.go:171-195 | marking a batch moves the deadline of each issued command by its own rule and no other deadline |
| `Schedule.NextDeadlineOnGrid` | internal/collector/collector.go:180-193 | from a grid point the deadline moves to the first point after now, or one point on when polled early |
| `Schedule.IssuedProperties` | internal/collector/collector.go:156-168 | a tick issues exactly the commands that are due, a forced poll all of them, each once |
| `Schedule.OnGrid` | internal/collector/collector.go:156-195 | in every run, forced polls included, each deadline is a point of the grid starting at the first call, at most one point ahead per forced poll |
| `Schedule.ClosedForm` | internal/collector/collector.go:156-195 | with scheduled ticks the deadline is t0 + I*(floor((tn-t0)/I)+1), whatever happened in between |
| `Schedule.ClosedFormIff` | internal/collector/collector.go:156-195 | in every run, forced polls included, the deadline has that form exactly when in no stretch at the end of the run do forced polls outnumber the grid points passed |
| `Schedule.ForcedKeepsClosedForm` | internal/collector/collector.go:505-509 | after scheduled ticks, one forced poll keeps that form exactly when the command was due |
| `Schedule.ForcedPollSkipsADeadline` | internal/collector/collector.go:505-509 | a concrete forced poll after which the next scheduled one does not happen |
| `Schedule.DueOnGrid` | internal/collector/collector.go:156-168 | a command is due exactly when a grid point has passed since the last tick |
| `Schedule.IssuedExactlyOnGridPoints` | internal/collector/collector.go:517-524 | a tick issues a command exactly when a point of its grid lies after the previous tick and not after this one |
| `Schedule.AlignedModulesShareBatches` | internal/collector/collector.go:156-195 | when one interval divides another, every tick that issues the slow command issues the fast one |
| `Schedule.EqualIntervalsStayTogether` | internal/collector/collector.go:171-195 | commands of equal intervals have equal deadlines in every run |
| `Schedule.IssuesInWindow` | internal/collector/collector.go:171-195 | between two ticks a command is issued at most once per grid point, exactly once when no gap exceeds its interval |
| `Schedule.IssueRate` | internal/collector/collector.go:171-195 | at most 1 + floor(elapsed/I) issues in a run, with equality when no gap exceeds I |
| `Ticker.LoopIssues` | internal/collector/collector.go:743-771 | a tick of a poll loop issues a command exactly when it crosses a point of its grid |
| `Ticker.GapIsRoundedInterval` | internal/collector/collector.go:171-195 | from the second tick on (in phase) every gap between successive issues is the interval rounded down or up to whole ticks |
| `Ticker.IssuedAsDocumentedIff` | docs/configuration.md:121-125 | for every tick, interval no shorter and first gap: the documented rule holds in every run of a poll loop, and so does never being polled sooner than the interval, exactly when the interval is a multiple of the tick and the second tick is in phase |
| `Ticker.ShortFirstPollInPhase` | internal/collector/collector.go:758-760 | it is when the first poll takes less than a tick |
| `Ticker.FortyFiveSecondModule` | docs/configuration.md:123-125 | the documented example: a 45 s group on an exact 30 s tick is issued at every tick except those with number 1 modulo 3 |
| `Ticker.SlowFirstPollShortensAGap` | internal/collector/collector.go:758-760 | a 60 s group on a 30 s poll issued 30 s apart after a first poll of 75 s |
| `Repeat.RepeatTracker.Observe` | internal/collector/repeat.go:28-45 | new state and line are those of `Observing` |
| `Repeat.RepeatTracker.Recover` | internal/collector/repeat.go:50-60 | new state and line are those of `Recovering` |
| `Repeat.TrackerFollowsStreak` | internal/collector/repeat.go:28-60 | the counters are the length, start and phase of the run of equal failures the trace ends with |
| `Repeat.LinesAreExpected` | internal/collector/repeat.go:28-60 | first failure of a run, every tenth repetition with the attempts so far, and a recovery with the length of the run it ends; otherwise silence |
| `Repeat.FirstFailureLoggedUnlessEmpty` | internal/collector/repeat.go:28-45 | the first failure of a run is logged exactly when its message is not empty |
| `Repeat.FailureLinesPerRun` | internal/collector/repeat.go:28-60 | over any trace, failure lines are the sum of 1 + floor((n-1)/10) over the maximal runs of equal messages |
| `Secret.TrimSecret` | internal/secret/credential.go:83-87 | strips line ends from the end and nothing else |
| `Secret.TrimIsUnique` | internal/secret/credential.go:83-87 | those conditions determine the result |
| `Secret.UsableMeans` | internal/secret/credential.go:78-91 | a file is accepted exactly when it can be read and holds anything besides carriage returns and line feeds, and then as that content without those at its end |
| `Secret.ReloadReportsChange` | internal/secret/credential.go:59-75 | a reload reports a rotation exactly when the password changed, then to the non-empty content of the file, and fails exactly when the file is unusable |
| `Secret.ReloadTakesTheFile` | internal/secret/credential.go:59-75 | after a reload memory holds what the file holds, and what it held before if the file holds nothing; which of the three outcomes is reported |
| `Secret.Credential.Open` | internal/secret/credential.go:37-45 | reads at once and refuses an unusable file |
| `Secret.Credential.Reload` | internal/secret/credential.go:59-75 | one file read; a failed one keeps the password |
| `Eapi.Stats.Record` | internal/eapi/stats.go:81-92 | one request more under its outcome and kind, bytes and duration added, reloads untouched |
| `Eapi.Stats.RecordReload` | internal/eapi/stats.go:95-102 | one reload more under its outcome, everything else untouched |
| `Eapi.Client.Attempt` | internal/eapi/client.go:196-293 | result, outcome, kind, bytes and duration counted for each way a request can end; one that cannot be built is counted and not sent |
| `Eapi.Client.Run` | internal/eapi/client.go:150-186 | client and result of a call; against a switch that lets in one password, the results exactly when that password is in memory or in the file at that moment, else the rejection |
| `Eapi.Client.RetryAfterRotation` | internal/eapi/client.go:167-186 | every reload is counted, and only a rotation leads to a second request |
| `Eapi.RunReturns` | internal/eapi/client.go:150-293 | what a call returns, from the reply that settles it: the second one when the first was a 401 and the file held another password, sent with that password, else the first |
| `Eapi.RunGetsIn` | internal/eapi/client.go:150-186 | against a switch that lets in one password: exactly when a call returns results, and that it then has the password in memory |
| `Eapi.AttemptCountsItsResult` | internal/eapi/client.go:208-285 | the outcome counted is the one the result shows, under the kind the number of commands gives, with the time taken |
| `Eapi.AttemptCountsItsBytes` | internal/eapi/client.go:258-266 | bytes are counted for every reply whose body is read, decodable or not |
| `Eapi.RunAccounting` | internal/eapi/client.go:150-193 | one call: one attempt plus one per observed rotation, at most one; one reload exactly when the first reply was a 401; a rotation is counted exactly when the password changed |
| `Eapi.CountersCountAttempts` | internal/eapi/stats.go:105-117 | what a snapshot means: after any calls each counter has grown by the attempts that ended its way, the bytes by what their replies held, the duration by what they took |
| `Eapi.StatesCountPrefixes` | internal/eapi/stats.go:105-117 | and at any moment in between, by the attempts made so far |
| `Eapi.Conservation` | internal/eapi/client.go:150-193 | over every sequence of calls: counted requests are calls plus rotations, reloads are first replies of 401 |
| `Eapi.CountedIsSentIffBuildable` | internal/eapi/client.go:230-241 | counted requests are the ones sent exactly when the URL parses or nothing was asked; otherwise none is sent |
| `Eapi.UnbuildableIsCountedAsSuccess` | internal/eapi/client.go:230-241 | a call that fails without sending anything and counts one success |
| `Collector.SwitchData.DueNow` | internal/collector/collector.go:156-168 | the due commands, in order |
| `Collector.SwitchData.MarkIssued` | internal/collector/collector.go:171-195 | the deadline map is the one `MarkDue` specifies |
| `Collector.SwitchData.SetError` | internal/collector/collector.go:798-811 | the scrape error, one failure per issued command and no others, and the log line |
| `Collector.SwitchData.Apply` | internal/collector/collector.go:604-612 | values and success times of the commands that succeeded, and of those alone |
| `Collector.SwitchData.MergeErrors` | internal/collector/collector.go:613-627 | failures of commands that were not issued are kept, the others replaced |
| `Collector.SwitchData.Commit` | internal/collector/collector.go:586-630 | the whole new record after a poll that brought something back |
| `Collector.SwitchData.OneByOne` | internal/collector/collector.go:543-552 | one request per command, each with its own result |
| `Collector.SwitchData.Gather` | internal/collector/collector.go:532-567 | client and answers of a poll, with an outcome for exactly the issued commands; refused exactly when the settling reply is a transport error, an undecodable body or a status, and one call per command more exactly when it is an eAPI error or has the wrong number of results |
| `Collector.SwitchData.Settle` | internal/collector/collector.go:536-631 | the record and the log line from what a poll brought back |
| `Collector.SwitchData.CollectIssued` | internal/collector/collector.go:526-631 | client, record and log line after a poll |
| `Collector.SwitchData.Collect` | internal/collector/collector.go:505-509 | a forced poll of every command |
| `Collector.SwitchData.CollectDue` | internal/collector/collector.go:517-524 | a poll of the due commands, and nothing at all when none is due |
| `Replies.PollByReply` | internal/collector/collector.go:532-567 | from the settling reply of the batch alone: how many calls a poll makes, whether it is refused, and that a refused one leaves the attempt time |
| `Replies.UnbuildablePollIsRefused` | internal/eapi/client.go:230-241 | a poll of a switch whose URL does not parse sends nothing and is refused |
| `Replies.BatchDelivers` | internal/collector/collector.go:554-567 | a batch with a result per command gives each its own: decoded, empty or unparsable |
| `Replies.FallbackDelivers` | internal/collector/collector.go:543-567 | after a fallback each command has what the reply settling its own request gives it, whatever became of the others |
| `Replies.ReasonByReply` | internal/collector/collector.go:576-602 | the scrape error, and the failure of every issued command, when nothing landed: what the batch met, or that no output was usable |
| `Poll.DescribeIsInjective` | internal/collector/collector.go:798-811 | different failures have different messages, so that none is suppressed as a repetition of another |
| `Poll.PartsNameTheFailed` | internal/collector/collector.go:782-790 | a partial failure names exactly the failed commands, each with its failure, in issue order |
| `Poll.SummaryTells` | internal/collector/collector.go:584-592 | equal summaries tell of equally many failed commands, and of the same command with the same failure where there is one |
| `History.StepOfCommand` | internal/collector/collector.go:554-630 | one poll seen from one command: only its own result touches its value and success time; only its own result or a wholesale failure touches its error |
| `History.CacheIsLastSuccess` | internal/collector/collector.go:604-612 | after every history, value and success time are those of the command's last successful poll |
| `History.CommandErrorsAreStandingFailures` | internal/collector/collector.go:613-627 | a command is on record as failed exactly when the last poll that issued it failed it and no poll without it has failed wholesale since, and then with that failure |
| `History.WholesaleFailureForgets` | internal/collector/collector.go:803-806 | a wholesale failure of other commands erases a failure that still stands |
| `History.ClocksByHistory` | internal/collector/collector.go:536-541 | attempt time, success time and scrape error as functions of the history; the attempt time ignores refused polls |
| `History.ScrapeSuccessMeansLastPollLanded` | internal/metrics/collector.go:158-183 | what success is computed from holds exactly when the last poll brought something back; `HealthByHistory` has the sample |
| `History.LastSuccessIsLatest` | internal/collector/collector.go:603-630 | with a clock that does not go back, the success time of the switch is the maximum of its commands' |
| `History.TrackerByHistory` | internal/collector/collector.go:584-602 | every poll shows the tracker exactly one event, and never an empty message |
| `History.PollLogsExpected` | internal/collector/collector.go:584-602 | so every poll of every history logs a failure when it is new, at every tenth repetition, and a recovery with the length of what it ends |
| `History.NewReasonIsAnnounced` | internal/collector/collector.go:798-811 | a wholesale failure after another is logged as new exactly when its reason is another one |
| `Batch.GatherIsAlone` | internal/collector/collector.go:526-567 | for a switch that answers each command on its merits, a poll learns what single requests would tell, with one request when nothing is rejected and 1 + n otherwise |
| `Batch.BatchRefinesSeparateRequests` | internal/collector/collector.go:526-631 | the committed values, success times and failed commands are those of the commands polled alone, and no other command's data changes |
| `Batch.BatchEqualsSequence` | internal/collector/collector.go:526-631 | a poll leaves the values, success times and switch success that polling its commands one after the other leaves; how the scrape error differs; and the failures on record, of which the sequence keeps the last alone |
| `Engine.EngineIsHistory` | internal/collector/collector.go:505-631 | every run, against any switch and secret file, is a history of the kind `History` covers, issued as `Schedule` says |
| `Engine.GatherIsRunAll` | internal/collector/collector.go:536-552 | a poll makes one call of `Run`, or one and then one per command, and never more |
| `Engine.EngineIsRunAll` | internal/collector/collector.go:517-552 | the client sees exactly the calls the polls of a run make |
| `Engine.LoneBatchCountsAsRetry` | internal/eapi/stats.go:124-137 | every fallback is counted as a retry, and the batch as a batch exactly when it does not hold a single command |
| `Engine.EngineConservation` | internal/eapi/client.go:150-193 | over every run: counted requests are calls of `Run` plus observed rotations, they are the ones sent exactly when the URL parses or nothing was due, reloads are first replies of 401 |
| `Engine.RejectedCredentialsAreNotAmplified` | internal/collector/collector.go:536-541 | a switch that answers everything with 401 is sent one request per poll plus one per secret change, whatever the number of commands |
| `Engine.FailureForgottenInARun` | internal/collector/collector.go:798-811 | a run of two ticks, for any decoder, after which a failed command is no longer on record although it was not tried again |
| `Render.ScrapeLimit` | internal/metrics/collector.go:281-289 | the limit is exceeded exactly when every command's own limit is |
| `Render.CommandDataMeans` | internal/metrics/collector.go:190-253 | what is shown of a command: exactly the items of its last output, when its module is asked for, it is fresh, and, where items name interfaces, of the interface asked for |
| `Render.CommandDataInOrder` | internal/metrics/collector.go:199-253 | without a filter each item of a fresh output is shown once, in the order decoded |
| `Render.ModuleFilterShowsItsGroup` | internal/metrics/collector.go:71-79 | a module filter shows the commands of that collect group and no other |
| `Render.CollectData` | internal/metrics/collector.go:199-253 | the data of the commands, in order |
| `Render.CollectSwitch` | internal/metrics/collector.go:158-254 | health always, data only past the scrape-level gate: the samples of `Rendered`, which `HealthByHistory` and `ScrapeShows` characterize |
| `Render.Collect` | internal/metrics/collector.go:99-110 | one switch, or all of them in configuration order |
| `Render.GateImpliesStale` | internal/metrics/collector.go:268-289 | while the scrape-level gate is shut every per-command gate is |
| `Render.GateIsRedundant` | internal/metrics/collector.go:184-197 | so it hides nothing the per-command gates would show |
| `Render.GateIsRedundantInEveryRun` | internal/metrics/collector.go:184-197 | the same for every state a run of the engine reaches |
| `Render.ScrapeSeesWholePolls` | internal/metrics/collector.go:158-254 | a scrape at any moment of a poll before it commits, between any two of its requests, shows what a scrape before the poll would have shown except for the request counters, which are those of the attempts made so far |
| `Render.RenderedHasLabel` | internal/metrics/collector.go:158-254 | every sample of a switch carries its label |
| `Render.FilteredScrapeIsRestriction` | internal/metrics/collector.go:71-110 | for every store and filter, a filtered scrape is the full one restricted sample by sample, in order: a module filter overrides the interface's modules, the interface restricts the interface modules only, health and counters stay |
| `Shown.HealthByHistory` | internal/metrics/collector.go:158-187 | after every history, under every filter: the one success sample is true exactly when the last poll brought something back; one status per listed command once there has been a poll, true exactly when no failure of it stands; the request counters; the time since the last poll that brought something back |
| `Shown.HealthByRun` | internal/metrics/collector.go:158-187 | the same after every run of the engine |
| `Shown.SwitchPart` | internal/metrics/collector.go:99-110 | what a scrape of one or all switches has of a switch is what that switch renders to, in order |
| `Shown.RunsAreSettled` | internal/collector/collector.go:603-630 | every run of the engine leaves a switch in a state of the kind the lemmas below speak of |
| `Shown.ScrapeShows` | internal/metrics/collector.go:71-254 | exactly which data samples a scrape has, for every target, module and interface: items of outputs no older than the limit or three intervals of their command, of the modules and the interface asked for |
| `Shown.InterfaceScrapeShowsOnly` | internal/metrics/collector.go:75-89 | a scrape for an interface, alone or with a module that has interfaces, shows nothing but items of that interface in that module, or in the three that have |
| `Shown.InterfaceScrapeShowsAll` | internal/metrics/collector.go:75-89 | and every current item of that interface |
| `Shown.OtherModuleIgnoresInterface` | internal/metrics/collector.go:75-89 | with any other module the interface restricts nothing |
| `Freshness.FreshByTick` | internal/metrics/collector.go:268-274 | after any history, whether a command's data is shown depends on the tick of its last success alone |
| `Freshness.AgeUnderDrift` | internal/metrics/collector.go:192-197 | with ticks that drift within bounds and at most m misses, data is no older than the grid points that m gaps can pass, one more gap and the poll in flight |
| `Freshness.ToleratesDriftingIff` | internal/metrics/collector.go:261-274 | for every interval, bound on the first and on later gaps, poll time, limit and m: m misses never take data out of a scrape, in any history that drifts within the bounds and at any instant, exactly when that age is within the longer of the limit and three intervals |
| `Freshness.OneMissStaysFresh` | internal/metrics/collector.go:261-274 | one missed poll is tolerated when a gap and the time of a poll fit into one interval |
| `Freshness.AgeBoundOnGrid` | internal/metrics/collector.go:192-197 | when every grid point has a tick, data is no older after m misses than m + 1 intervals and the poll in flight |
| `Freshness.MissesOnGridStayFresh` | internal/metrics/collector.go:261-274 | so m misses are tolerated when m + 1 intervals and the time of a poll fit the limit |
| `Freshness.AgeInLoop` | internal/metrics/collector.go:192-197 | in a poll loop, data is no older after m misses than m + 1 intervals rounded up to whole ticks, or the tick that ends as many after the first poll, and the poll in flight |
| `Freshness.ToleratesIff` | internal/metrics/collector.go:261-274 | for every tick, interval no shorter, first gap, poll time, limit and m: m misses never take data out of a scrape, in any run of a poll loop and at any instant, exactly when that age is within the longer of the limit and three intervals |
| `Freshness.TwoMissesToleratedIff` | internal/metrics/collector.go:261-274 | under the default limit, two are tolerated exactly when polls take no time and three intervals are a whole number of ticks |
| `Freshness.TwoMissesOffGridGoStale` | internal/metrics/collector.go:261-274 | a 45 s group on a 30 s tick goes stale after two, before its next poll is due |
| `Freshness.TwoMissesGoStaleInFlight` | internal/collector/collector.go:532-612 | a 30 s group on a 30 s tick goes stale after two while the third poll waits for the switch |
| `Freshness.TwoMissesAfterSlowStartGoStale` | internal/collector/collector.go:758-760 | and, after a first poll of 2 s, before the tick of the third |
| `Offset.PollOffset` | internal/collector/collector.go:707-731 | the start delay of the i-th poller for any draw: i times the spacing, moved by the draw less a third of it |
| `Offset.PlacedAt` | internal/collector/collector.go:707-731 | that position in figures, for every fleet and interval: neither clamp moves it |
| `Offset.OffsetInRange` | internal/collector/collector.go:707-731 | neither clamp ever fires and every offset lies within the interval, clear of both ends |
| `Offset.StartsAreSpread` | internal/collector/collector.go:690-731 | for every draw, starts strictly increase, stay apart, and leave room before the first poller's second poll |
| `Target.StripSchemeMeans` | internal/metrics/handler.go:63-68 | what follows the first "://" is kept; without one the host is |
| `Target.Add` | internal/metrics/handler.go:37-46 | first owner and ambiguity of every key, after one more claim |
| `Target.DropAmbiguous` | internal/metrics/handler.go:54-59 | drops the keys with several owners unless the first has the key as its label |
| `Target.TargetIndex` | internal/metrics/handler.go:33-61 | the index is `Resolved` of every key |
| `Target.ResolvesToClaimant` | internal/metrics/handler.go:24-32 | a key resolves exactly when it has one owner, or its first claimant has it as label, and then to that claimant |
| `Target.LabelResolvesUnlessAnEarlierHost` | internal/metrics/handler.go:30-32 | a label resolves, to its own switch, exactly when no earlier switch answers to it |
| `Target.LabelShadowedByHost` | internal/metrics/handler.go:54-59 | two switches for which a label does not resolve |
| `Target.OrderIndependent` | internal/metrics/handler.go:33-61 | the order of switches matters only for keys that are one switch's label and another's host |
| `Handler.NewStore` | internal/collector/collector.go:117-133 | one entry per switch in order with its command list, or an error exactly when a label repeats, naming one that does |
| `Handler.EntryIsConfigured` | internal/collector/collector.go:117-133 | the entry of a validated switch: its label, and `show version` followed by exactly the commands its block and the defaults enable, under its scope |
| `Handler.ConfiguredSpecsAreRunnable` | internal/collector/collector.go:117-133 | every command list built from a validated configuration meets what the scheduler, renderer and liveness theorems ask of one |
| `Handler.Answer` | internal/metrics/handler.go:162-232 | exactly which requests are refused and with which fault; for an interface, exactly when no last output of an interface command of the switch asked for, or of any, has it as a key; which of the three registries answers the others, and with which label, module and interface |
| `Handler.TargetedScrapeShowsTheTarget` | internal/metrics/handler.go:188-230 | everything a targeted scrape shows belongs to a switch that answers to the target |
| `ScrapeAuth.BasicAuth.Due` | internal/listen/auth.go:111-120 | claims exactly when an interval has passed |
| `ScrapeAuth.BasicAuth.Allow` | internal/listen/auth.go:87-107 | verdict, password, claim and file reads are those of `AllowOn` |
| `ScrapeAuth.AloneAcceptedIff` | internal/listen/auth.go:80-107 | run alone, a call is accepted exactly when its name matches and its password is in memory, or is on disk and a re-read is due |
| `ScrapeAuth.AloneIsAllow` | internal/listen/auth.go:87-120 | the steps of a concurrent call, with nothing in between, do what the sequential method does |
| `ScrapeAuth.ReReadsAreThrottled` | internal/listen/auth.go:109-120 | under every interleaving, claims are 30 s apart, number at most floor(elapsed/30s), and each costs at most one file read |
| `ScrapeAuth.VerdictsAreHonest` | internal/listen/auth.go:87-107 | an accepted call had the right name and a password that was in memory during it; a rejected one had a wrong name or met a moment at which its password was not in memory |
| `ScrapeAuth.MemoryComesFromTheFile` | internal/secret/credential.go:54-91 | the password in memory is always a non-empty trimmed version of the file |
| `ScrapeAuth.StaticPasswordNeverChanges` | internal/secret/credential.go:59-62 | an inline password is never replaced and no file is read for it |
| `ScrapeAuth.NeverGoesBackIff` | internal/secret/credential.go:59-75 | memory never returns to an older version of the file exactly when no step swaps in a password read from an older version than the one it replaces |
| `ScrapeAuth.SeparateReadsNeverGoBack` | internal/secret/credential.go:59-75 | in particular while no two reads overlap |
| `ScrapeAuth.OverlappingReadsCanGoBack` | internal/secret/credential.go:63-74 | when they do it can, for every pair of successive rotations |
| `Certificate.Certificate.Open` | internal/listen/tls.go:49-55 | a pair that cannot be loaded is refused at startup |
| `Certificate.Certificate.Load` | internal/listen/tls.go:58-74 | replaces pair, stamp and check time together, or nothing |
| `Certificate.Certificate.Get` | internal/listen/tls.go:95-119 | one handshake at a time: the cache after it, and that it is served from it |
| `Certificate.AloneIsGet` | internal/listen/tls.go:95-119 | the steps of a concurrent handshake, with nothing in between, do what the sequential method does |
| `Certificate.OnlyLoadedPairsAreCached` | internal/listen/tls.go:58-119 | under every interleaving of handshakes and writes, every cached pair was read from files that loaded and its stamp taken then or later: a broken pair never replaces a working one |
| `Certificate.ServedWasCurrent` | internal/listen/tls.go:95-119 | under every interleaving, what a handshake is served was the cached pair at some moment of it |
| `Certificate.CacheIsDescribed` | internal/listen/tls.go:58-74 | under every interleaving, the cached stamp describes the cached pair exactly when its load was not disturbed by a write of another pair |
| `Certificate.CheckServesTheDisk` | internal/listen/tls.go:89-119 | in every reachable state, a due check that runs alone fails to serve a loadable pair on disk exactly when the last load was disturbed and the disk still carries the stamp it filed; with nothing loadable on disk it serves what was cached |
| `Certificate.NextStampRecovers` | internal/listen/tls.go:95-119 | whatever happened before, a check due after the next change of the stamp serves the pair on disk, undisturbed |
| `Certificate.NothingToLoad` | internal/listen/tls.go:95-119 | while the files hold nothing both changed and loadable, no handshakes in any interleaving change the cache, and each check that marks tries to load if the stamp differs |
| `Certificate.BrokenPairIsRetried` | internal/listen/tls.go:89-119 | so a changed pair that does not load is tried by every check and replaces nothing |
| `Certificate.ChecksAreThrottled` | internal/listen/tls.go:42-47 | under every interleaving, checks that do not overlap another number at most floor(elapsed/30s); each check leads to at most one load |
| `Certificate.ChecksCanPileUp` | internal/listen/tls.go:96-107 | overlapping ones have no bound: for every n a run makes n at one instant |
| `Certificate.RenewalFailsIff` | internal/listen/tls.go:42-119 | in every reachable state, a handshake that runs alone once a loadable pair has been on disk for 30 s is not served with it exactly when another pair is cached and the cached stamp is the disk's, or a load installed or a check still loading in the last 30 s keeps the next check from being due |
| `Certificate.RenewalIsServedWithinAnInterval` | internal/listen/tls.go:42-119 | so it is served in every run in which no load installs a pair the files have left behind, unless a check is loading at that moment |
| `Certificate.OverlappingLoadsServeOld` | internal/listen/tls.go:58-119 | two overlapping handshakes, neither load disturbed: the newer pair is served, then the older one installed over it and served 30 s after the newer was written |
| `Certificate.DisturbedLoad` | internal/listen/tls.go:58-74 | a run that ends with the old pair filed under the new stamp |
| `Certificate.WriteDuringLoadSticks` | internal/listen/tls.go:58-119 | from such a state no handshakes in any interleaving serve the pair on disk while the files stay |
| `Health.Checker.Live` | internal/health/health.go:47-68 | true exactly when no switch is overdue |
| `Health.Checker.Ready` | internal/health/health.go:78-88 | true exactly when every switch has an attempt |
| `Health.TickingPollerIsCycling` | internal/health/health.go:13-21 | a poller whose polls complete within nine intervals of the previous tick, and are not refused, is never overdue |
| `Health.EngineIsLooping` | internal/collector/collector.go:743-771 | every run of the engine over scheduled ticks is a poll loop of the kind the liveness theorems cover |
| `Health.FleetStaysLive` | internal/health/health.go:42-68 | pollers launched before the checker starts, each at its offset, that keep to that hold liveness up at every instant |
| `Health.RefusedPollsEndLiveness` | internal/collector/collector.go:536-541 | a switch that refuses every poll has no attempt, and fails liveness from ten intervals on |
| `Health.CyclingByHistory` | internal/health/health.go:47-68 | a switch is not overdue exactly when it answered a poll in the last ten intervals, or none yet in a young process |
| `Health.RejectedCredentialsLeaveNoAttempt` | internal/health/health.go:13-21 | in every run against rejected credentials no attempt is recorded |
| `Health.ReadyStays` | internal/health/health.go:70-88 | readiness, once reached, stays in every run |

## Left out

- HTTP, sockets, TLS handshakes, client certificate verification and Prometheus registries: a request is an arbitrary reply, a scrape is a list of samples.
- Decoding of JSON and YAML and the shape of each command's output: decoding is an arbitrary partial function, its result the set of interfaces it has entries for and a list of items.
- The individual metrics and their values: they would add one easy enumeration per command.
- The decoders' own checks of a configuration (positive intervals, reserved names, scopes): `Config.Decoded` states what they leave.
- `applyDefaults` and the rest of validation: a chain of one-step rules. A poll interval that is not positive is not refused by them; the theorems say where they need it positive.
- Widths of integers: durations are 64-bit and counters 64-bit unsigned in the original; overflow needs intervals of centuries and is not modelled.
- Log levels and the wording of failure texts beyond the parts that decide repetition; rounding of the durations logged.
- `ensureScheduled`: fills in the command list of records built around the constructor.
- Eapi.Client.Attempt: a client without counters is not modelled; counting is all it would skip.
- Poll.DescribeIsInjective: messages are modelled as a prefix per kind of failure followed by its code, counts or text; in the original the texts of transport failures carry no prefix and those of a 403 and a 404 carry advice.
- Render.CollectData: one gate over a table stands for the seventeen gates written out in the original; item contents are abstract.
- Certificate.OnlyLoadedPairsAreCached: the certificate and key files are read, and stat-ed, as one step each; a write between the two files of a pair is a write of a pair that does not load.
- Freshness.ToleratesIff: a ticker drops ticks while a poll takes longer than one; those runs are among the drifting ones of `ToleratesDriftingIff`.
- Ticker.IssuedAsDocumentedIff: likewise for loops that drop no tick.
- ScrapeAuth.BasicAuth.Allow: comparison is equality; the constant-time comparison and the exempt paths of the handler are not modelled.
- The order in which Go iterates maps: results that depend on it (which offending key is reported) are stated for any order.
- The status report, flags, signals and process wiring: single-branch readings of the state modelled here.
