// The restart-storm guard needs ordered clock readings: the run that shows it, and
// the exact condition.

module NfqwsStorm {
  import opened NfqwsJobs
  import opened NfqwsRuntime
  import opened Text
  import opened Wrappers

  // A job with the shortest interval that can be loaded.
  ghost predicate Shortest(job: Job) { Normal(job) && job.enabled && job.interval == MIN_MINUTES }

  lemma ShortestExists() returns (job: Job)
    ensures Shortest(job)
  {
    job := Job("x", NfqueueHealth, "", MIN_MINUTES, true);
    TrimNothing("x");
    TrimNothing("");
    PartsAreNormal(job);
  }

  const GOOD := Response(200, "", None)

  // The job is configured while it runs, by a later clock reading than the one
  // its completion uses: execute reads the clock before it takes the lock.
  function Overtaken(job: Job): seq<Event> {
    [Manual(job.id)] + [Configuration(Raw(job), 2, true)] + [Completion(0, [GOOD, GOOD], 1)]
  }

  lemma StepsNext(codec: Codec, s: System, events: seq<Event>, e: Event)
    requires WellSized(s)
    ensures Steps(codec, s, events + [e]) == Step(codec, Steps(codec, s, events), e)
  {
    assert (events + [e])[..|events + [e]| - 1] == events;
  }

  lemma OneLoads(job: Job)
    requires Normal(job)
    ensures Loaded([Raw(job)]) == map[job.id := job]
  {
    assert [Raw(job)][..0] == [];
    assert Kept(map[], Ok(job)) == map[job.id := job];
  }

  // Scheduled once, launched by hand.
  ghost predicate Launched1(s: System, job: Job) {
    && s.rt.items == map[job.id := job] && s.inflight == [job] && s.log == [SchedulerStart({job.id}, 1)]
    && s.rt.runningKeys == {Key(job)}
  }

  lemma AfterManual(codec: Codec, job: Job)
    requires Shortest(job)
    ensures Launched1(Steps(codec, Booted([Raw(job)], 1), [Manual(job.id)]), job)
  {
    OneLoads(job);
    var s := Booted([Raw(job)], 1);
    StepsNext(codec, s, [], Manual(job.id));
    assert [] + [Manual(job.id)] == [Manual(job.id)] && [] + [job] == [job];
    assert Free(s.rt, job.id) && s.rt.items.Keys == {job.id} && {} + {Key(job)} == {Key(job)};
  }

  ghost predicate Reconfigured2(s: System, job: Job) {
    && s.rt.items == map[job.id := job] && s.inflight == [job]
    && s.log == [SchedulerStart({job.id}, 1), Configured(job.id, 2)] && s.rt.runningKeys == {Key(job)}
  }

  lemma ConfigurationAdopts(codec: Codec, s: System, raw: RawJob, job: Job, now: Instant)
    requires WellSized(s) && job.interval >= MIN_MINUTES && job.id in s.rt.items && Normalize(raw) == Ok(job)
    ensures Step(codec, s, Configuration(raw, now, true)) == Adopt(s, job, now)
  {
    assert Accepts(s.rt, job);
  }

  lemma AfterConfiguration(codec: Codec, s: System, job: Job)
    requires Shortest(job) && WellSized(s) && Launched1(s, job)
    ensures Reconfigured2(Step(codec, s, Configuration(Raw(job), 2, true)), job)
  {
    assert Normalize(Raw(job)) == Ok(job);
    ConfigurationAdopts(codec, s, Raw(job), job, 2);
    AfterAdoption(s, job);
  }

  lemma AfterAdoption(s: System, job: Job)
    requires job.interval == MIN_MINUTES && WellSized(s) && Launched1(s, job)
    ensures Reconfigured2(Adopt(s, job, 2), job)
  {
    assert s.rt.items[job.id := job] == map[job.id := job];
  }

  ghost predicate Completed1(s: System, job: Job) {
    && s.rt.items == map[job.id := job] && s.rt.runningKeys == {} && !StateOf(s.rt, job.id).running
    && StateOf(s.rt, job.id).nextRunAt == 1 + MIN_MINUTES * MINUTE
    && |s.log| == 3 && s.log[0] == SchedulerStart({job.id}, 1) && s.log[1] == Configured(job.id, 2)
    && s.log[2].Completed? && s.log[2].id == job.id && s.log[2].rec.at == 1
  }

  lemma AfterCompletion(codec: Codec, s: System, job: Job)
    requires Shortest(job) && WellSized(s) && Reconfigured2(s, job)
    ensures Completed1(Step(codec, s, Completion(0, [GOOD, GOOD], 1)), job)
  {}

  lemma OvertakenRuns(codec: Codec, job: Job)
    requires Shortest(job)
    ensures Completed1(Run(codec, [Raw(job)], 1, Overtaken(job)), job)
  {
    var start, one, two := Booted([Raw(job)], 1), [Manual(job.id)], [Manual(job.id)] + [Configuration(Raw(job), 2, true)];
    AfterManual(codec, job);
    StepsNext(codec, start, one, Configuration(Raw(job), 2, true));
    AfterConfiguration(codec, Steps(codec, start, one), job);
    StepsNext(codec, start, two, Completion(0, [GOOD, GOOD], 1));
    AfterCompletion(codec, Steps(codec, start, two), job);
  }

  // One reading is one late, and a tick may start the job less than 15 minutes
  // after its configuration.
  lemma OrderIsNeeded(codec: Codec, job: Job)
    requires Shortest(job)
    ensures var s, now := Run(codec, [Raw(job)], 1, Overtaken(job)), 1 + MIN_MINUTES * MINUTE;
      LateBy(s.log, job.id, 1) && Due(s.rt, job.id, now) && !ClearOf(s.log, job.id, now, 0)
  {
    OvertakenRuns(codec, job);
    OvertakenIsDue(Run(codec, [Raw(job)], 1, Overtaken(job)), job);
  }

  lemma OvertakenIsDue(s: System, job: Job)
    requires job.enabled && job.interval == MIN_MINUTES && WellSized(s) && Completed1(s, job)
    ensures var now := 1 + MIN_MINUTES * MINUTE;
      LateBy(s.log, job.id, 1) && Due(s.rt, job.id, now) && !ClearOf(s.log, job.id, now, 0)
  {
    assert TouchOf(s.log[0], job.id) == Some(1) && TouchOf(s.log[1], job.id) == Some(2) && TouchOf(s.log[2], job.id) == Some(1);
  }

  ghost predicate Guards(codec: Codec, order: seq<RawJob>, at: Instant, events: seq<Event>, id: string, now: Instant, d: int) {
    var s := Run(codec, order, at, events);
    LateBy(s.log, id, d) && Due(s.rt, id, now) ==> ClearOf(s.log, id, now, 0)
  }

  lemma LessLate(log: seq<Entry>, id: string, d: int, e: int)
    requires LateBy(log, id, d) && d <= e
    ensures LateBy(log, id, e)
  {}

  // The storm guard holds in every run whose completions and configurations of a
  // job are up to d late if and only if d allows no lateness at all.
  lemma GuardIffOrdered(codec: Codec, d: int)
    ensures (forall order, at, events, id, now :: Guards(codec, order, at, events, id, now, d)) <==> d <= 0
  {
    if d <= 0 {
      forall order, at, events, id, now ensures Guards(codec, order, at, events, id, now, d) {
        var s := Run(codec, order, at, events);
        if LateBy(s.log, id, d) { LessLate(s.log, id, d, 0); }
        NoRestartStorm(codec, order, at, events, id, now, 0);
      }
    } else {
      var job := ShortestExists();
      OrderIsNeeded(codec, job);
      LessLate(Run(codec, [Raw(job)], 1, Overtaken(job)).log, job.id, 1, d);
      assert !Guards(codec, [Raw(job)], 1, Overtaken(job), job.id, 1 + MIN_MINUTES * MINUTE, d);
    }
  }
}
