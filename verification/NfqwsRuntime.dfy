// The NFQWS job runtime: timer ticks, manual runs, reconfiguration and
// asynchronous completion, in any interleaving.

module NfqwsRuntime {
  import opened Text
  import opened NfqwsJobs
  import opened Wrappers

  // Nanoseconds since Go's zero time.
  type Instant = nat

  const ZERO: Instant := 0
  const MINUTE: Instant := 60_000_000_000
  const JOBS_MAX: nat := 32
  const RETRY_MAX: nat := 1
  const OUTPUT_MAX: nat := 4096
  const INTERNAL_SERVER_ERROR: int := 500

  datatype Response = Response(status: int, output: string, error: Option<string>)

  // What the outcome depends on in a response body.
  datatype Health = Healthy | Sick | Unclear
  datatype Body = Body(ok: bool, cleanup: bool, strategyNeeded: bool, recommended: bool, inconclusive: bool, health: Health)

  datatype Outcome = NeverRun | Success | Inconclusive | Failed | Unhealthy

  // Only a clean 2xx answer is judged by its body.
  function Classify(body: Body, kind: Kind, r: Response): (o: Outcome)
    ensures o == Failed <==> r.error.Some? || r.status < 200 || r.status > 299
    ensures o == Unhealthy <==>
              o != Failed && ((kind == StrategyHealthRecheck && !(body.ok && body.cleanup)) || (kind == NfqueueHealth && body.health == Sick))
    ensures o == Inconclusive <==>
              o != Failed
              && ((kind == DetectTarget && body.inconclusive)
                  || (kind == StrategyHealthRecheck && body.ok && body.cleanup && body.strategyNeeded && !body.recommended)
                  || (kind == Tcp16Revalidate && !body.ok)
                  || (kind == NfqueueHealth && body.health == Unclear))
    ensures o != NeverRun
  {
    if r.error.Some? || r.status < 200 || r.status >= 300 then Failed
    else match kind
      case DetectTarget => if body.inconclusive then Inconclusive else Success
      case StrategyHealthRecheck =>
        if !body.ok || !body.cleanup then Unhealthy
        else if body.strategyNeeded && !body.recommended then Inconclusive
        else Success
      case Tcp16Revalidate => if !body.ok then Inconclusive else Success
      case NfqueueHealth =>
        (match body.health
         case Healthy => Success
         case Sick => Unhealthy
         case Unclear => Inconclusive)
      case BackupCleanup => Success
  }

  predicate ShouldRetry(r: Response) { r.error.Some? || r.status >= INTERNAL_SERVER_ERROR }

  // How answers are read: the JSON body, and strings.TrimSpace. A character of an
  // output stands for a byte.
  datatype Codec = Codec(parse: string -> Body, trim: string -> string)

  function Truncated(trim: string -> string, output: string): (r: string)
    ensures |trim(output)| <= 4096 ==> r == trim(output)
    ensures |trim(output)| > 4096 ==> |r| == 4099 && r[..4096] <= trim(output) && r[4096..] == "..."
  {
    var t := trim(output);
    if |t| > OUTPUT_MAX then t[..OUTPUT_MAX] + "..." else t
  }

  datatype Cadence = NoCadence | First | Periodic

  datatype JobState = JobState(
    job: Option<Job>, running: bool, lastRunAt: Instant, lastOk: bool, lastStatus: int, lastOutput: string,
    lastError: string, outcome: Outcome, retryCount: nat, runCount: nat, cadence: Cadence,
    lastGoodAt: Instant, lastGoodStatus: int, lastGoodOutput: string, nextRunAt: Instant)

  const BLANK := JobState(None, false, ZERO, false, 0, "", "", NeverRun, 0, 0, NoCadence, ZERO, 0, "", ZERO)

  datatype Runtime = Runtime(items: map<string, Job>, state: map<string, JobState>, runningKeys: set<string>)

  function StateOf(rt: Runtime, id: string): JobState { if id in rt.state then rt.state[id] else BLANK }

  function After(now: Instant, job: Job): Instant
    requires job.interval >= 0
  {
    now + job.interval * MINUTE
  }

  // One completed execution. first is the answer to its first call, attempts
  // counts the calls it made, shown is its output as it is kept.
  datatype Record = Record(at: Instant, first: Response, response: Response, attempts: nat, outcome: Outcome, shown: string)

  // A second call is made exactly when the first failed or was answered with
  // 500 and above.
  predicate Tried(rec: Record) {
    && 1 <= rec.attempts <= RETRY_MAX + 1 && (rec.attempts == 2 <==> ShouldRetry(rec.first))
    && (rec.attempts == 1 ==> rec.response == rec.first)
  }

  predicate Sized(items: map<string, Job>) { forall id :: id in items ==> items[id].id == id && items[id].interval >= MIN_MINUTES }

  predicate Free(rt: Runtime, id: string)
    requires id in rt.items
  {
    !StateOf(rt, id).running && Key(rt.items[id]) !in rt.runningKeys
  }

  function NextRun(st: JobState, job: Job): Instant
    requires job.interval >= 0
  {
    if st.nextRunAt == ZERO then After(st.lastRunAt, job) else st.nextRunAt
  }

  predicate Due(rt: Runtime, id: string, now: Instant)
    requires Sized(rt.items)
  {
    && id in rt.items && rt.items[id].enabled && Free(rt, id)
    && var next := NextRun(StateOf(rt, id), rt.items[id]); next != ZERO && now >= next
  }

  function Launched(rt: Runtime, id: string): Runtime
    requires id in rt.items
  {
    var job := rt.items[id];
    rt.(state := rt.state[id := StateOf(rt, id).(job := Some(job), running := true)], runningKeys := rt.runningKeys + {Key(job)})
  }

  function TickOne(rt: Runtime, id: string, now: Instant): Runtime
    requires Sized(rt.items)
  {
    if Due(rt, id, now) then Launched(rt, id) else rt
  }

  // A tick visits the items in some order.
  function TickAll(rt: Runtime, order: seq<string>, now: Instant): (r: Runtime)
    requires Sized(rt.items)
    ensures r.items == rt.items
  {
    if order == [] then rt else TickOne(TickAll(rt, order[..|order| - 1], now), order[|order| - 1], now)
  }

  function Finished(st: JobState, job: Job, rec: Record): JobState
    requires job.interval >= 0 && rec.attempts > 0
  {
    var good := rec.outcome == Success;
    var output := rec.shown;
    JobState(Some(job), false, rec.at, good, rec.response.status, output,
             if rec.response.error.Some? then rec.response.error.value else "", rec.outcome, rec.attempts - 1, st.runCount + 1,
             if st.runCount == 0 then First else Periodic,
             if good then rec.at else st.lastGoodAt, if good then rec.response.status else st.lastGoodStatus,
             if good then output else st.lastGoodOutput, After(rec.at, job))
  }

  function Settled(rt: Runtime, job: Job, rec: Record): Runtime
    requires job.interval >= 0 && rec.attempts > 0
  {
    rt.(state := rt.state[job.id := Finished(StateOf(rt, job.id), job, rec)], runningKeys := rt.runningKeys - {Key(job)})
  }

  predicate Accepts(rt: Runtime, job: Job) { job.id in rt.items || |rt.items| < JOBS_MAX }

  function Reconfigured(rt: Runtime, job: Job, now: Instant): Runtime
    requires job.interval >= 0
  {
    rt.(items := rt.items[job.id := job],
        state := rt.state[job.id := StateOf(rt, job.id).(job := Some(job), nextRunAt := After(now, job))])
  }

  predicate NormalAt(items: map<string, Job>, id: string) { id in items ==> items[id].id == id && Normal(items[id]) }

  ghost predicate AllNormal(items: map<string, Job>) { forall id :: NormalAt(items, id) }

  lemma NormalIsSized(items: map<string, Job>)
    requires AllNormal(items)
    ensures Sized(items)
  {
    forall id | id in items ensures items[id].id == id && items[id].interval >= MIN_MINUTES {
      assert NormalAt(items, id);
      NormalParts(items[id]);
    }
  }

  lemma PutKeepsNormal(items: map<string, Job>, job: Job)
    requires AllNormal(items) && Normal(job)
    ensures AllNormal(items[job.id := job])
  {
    var next := items[job.id := job];
    forall id ensures NormalAt(next, id) { PutKeepsNormalAt(items, job, id); }
  }

  lemma PutKeepsNormalAt(items: map<string, Job>, job: Job, id: string)
    requires NormalAt(items, id) && Normal(job)
    ensures NormalAt(items[job.id := job], id)
  {}

  lemma NormalizeIsSized(raw: RawJob)
    requires Normalize(raw).Ok?
    ensures Normalize(raw).value.interval >= MIN_MINUTES
  {
    NormalizeIsNormal(raw);
    NormalParts(Normalize(raw).value);
  }

  function Kept(m: map<string, Job>, n: Result<Job, Reason>): map<string, Job> {
    if n.Ok? && |m| < JOBS_MAX then m[n.value.id := n.value] else m
  }

  // The configuration file's items in the order they are visited.
  function Loaded(order: seq<RawJob>): map<string, Job> {
    if order == [] then map[] else Kept(Loaded(order[..|order| - 1]), Normalize(order[|order| - 1]))
  }

  lemma KeptIsNormal(m: map<string, Job>, raw: RawJob)
    requires AllNormal(m) && |m| <= JOBS_MAX
    ensures AllNormal(Kept(m, Normalize(raw))) && |Kept(m, Normalize(raw))| <= JOBS_MAX
  {
    if Normalize(raw).Ok? {
      NormalizeIsNormal(raw);
      PutKeepsNormal(m, Normalize(raw).value);
    }
  }

  // Whatever the file holds, at most 32 items are taken, each normalized and
  // under its own id.
  lemma {:induction false} LoadedIsNormal(order: seq<RawJob>)
    ensures AllNormal(Loaded(order)) && |Loaded(order)| <= JOBS_MAX
  {
    if order != [] {
      LoadedIsNormal(order[..|order| - 1]);
      KeptIsNormal(Loaded(order[..|order| - 1]), order[|order| - 1]);
    }
  }

  // Each comes from a visited item; and below 32 each good item has come in.
  lemma {:induction false} LoadedComeFrom(order: seq<RawJob>)
    ensures forall id :: id in Loaded(order) ==>
      exists raw :: raw in order && Normalize(raw) == Ok(Loaded(order)[id]) && Loaded(order)[id].id == id
    ensures |Loaded(order)| < 32 ==> forall raw :: raw in order && Normalize(raw).Ok? ==> Normalize(raw).value.id in Loaded(order)
  {
    if order != [] {
      var init, last := order[..|order| - 1], order[|order| - 1];
      assert order == init + [last];
      LoadedComeFrom(init);
      LoadedNext(init, last);
    }
  }

  lemma LoadedNext(init: seq<RawJob>, last: RawJob)
    ensures var before, all := Loaded(init), Loaded(init + [last]);
      && (all == before || (Normalize(last).Ok? && all == before[Normalize(last).value.id := Normalize(last).value]))
      && |before| <= |all| && (Normalize(last).Ok? && |before| < 32 ==> Normalize(last).value.id in all)
  {
    assert (init + [last])[..|init|] == init;
    var before, all := Loaded(init), Loaded(init + [last]);
    if all != before {
      assert all.Keys == before.Keys + {Normalize(last).value.id};
      assert |before.Keys| <= |all.Keys|;
    }
  }

  lemma LoadedIsSized(order: seq<RawJob>)
    ensures Sized(Loaded(order))
  {
    LoadedIsNormal(order);
    NormalIsSized(Loaded(order));
  }

  function Scheduled(items: map<string, Job>, now: Instant): Runtime
    requires Sized(items)
  {
    Runtime(items, map id | id in items :: BLANK.(job := Some(items[id]), lastRunAt := now, nextRunAt := After(now, items[id])), {})
  }

  // ---- the program ---------------------------------------------------------

  // The attempt loop of execute; answers holds what each attempt would get.
  method Attempt(answers: seq<Response>) returns (response: Response, retries: nat)
    requires |answers| == RETRY_MAX + 1
    ensures retries == if answers[0].error.Some? || answers[0].status >= 500 then 1 else 0
    ensures response == answers[retries]
  {
    response := Response(0, "", None);
    retries := 0;
    var attempt := 0;
    while attempt <= RETRY_MAX
      invariant attempt <= RETRY_MAX
      invariant attempt == retries && forall k :: 0 <= k < attempt ==> ShouldRetry(answers[k])
    {
      response := answers[attempt];
      if attempt >= RETRY_MAX || !ShouldRetry(response) { break; }
      retries := retries + 1;
      attempt := attempt + 1;
    }
  }

  function Executed(codec: Codec, job: Job, answers: seq<Response>, now: Instant): Record
    requires |answers| == RETRY_MAX + 1
  {
    var n := if ShouldRetry(answers[0]) then 1 else 0;
    Record(now, answers[0], answers[n], n + 1, Classify(codec.parse(answers[n].output), job.kind, answers[n]),
           Truncated(codec.trim, answers[n].output))
  }

  // Each item of the file has been visited once, under its key, but for todo.
  ghost predicate Visited(order: seq<RawJob>, raws: map<string, RawJob>, todo: set<string>) {
    forall raw :: raw in order <==> exists id :: id in raws && id !in todo && raw == raws[id].(id := id)
  }

  ghost predicate Visits(order: seq<RawJob>, raws: map<string, RawJob>) { |order| == |raws| && Visited(order, raws, {}) }

  lemma VisitedNext(order: seq<RawJob>, raws: map<string, RawJob>, todo: set<string>, id: string)
    requires Visited(order, raws, todo) && id in todo && todo <= raws.Keys
    ensures Visited(order + [raws[id].(id := id)], raws, todo - {id})
  {
    var next := order + [raws[id].(id := id)];
    forall raw ensures raw in next <==> exists other :: other in raws && other !in todo - {id} && raw == raws[other].(id := other) {
      if raw in next && raw !in order { assert id in raws && id !in todo - {id} && raw == raws[id].(id := id); }
    }
  }

  class Runner {
    var items: map<string, Job>
    var state: map<string, JobState>
    var runningKeys: set<string>
    var started: bool

    function View(): Runtime
      reads this
    {
      Runtime(items, state, runningKeys)
    }

    constructor ()
      ensures View() == Runtime(map[], map[], {}) && !started
    {
      items, state, runningKeys, started := map[], map[], {}, false;
    }

    // file: the configuration file when it could be read and parsed.
    method Load(file: Option<map<string, RawJob>>) returns (loaded: map<string, Job>, ghost order: seq<RawJob>)
      ensures loaded == Loaded(order) && AllNormal(loaded) && |loaded| <= 32
      ensures file.None? ==> loaded == map[] && order == []
      ensures file.Some? ==> Visits(order, file.value)
    {
      loaded, order := map[], [];
      if file.Some? { loaded, order := LoadItems(file.value); }
      LoadedIsNormal(order);
    }

    method LoadItems(raws: map<string, RawJob>) returns (loaded: map<string, Job>, ghost order: seq<RawJob>)
      ensures loaded == Loaded(order) && Visits(order, raws)
    {
      loaded, order := map[], [];
      var todo := raws.Keys;
      while todo != {}
        invariant todo <= raws.Keys && |order| + |todo| == |raws.Keys|
        invariant loaded == Loaded(order)
        invariant Visited(order, raws, todo)
        decreases todo
      {
        var id :| id in todo;
        var item := raws[id].(id := id);
        assert (order + [item])[..|order|] == order;
        VisitedNext(order, raws, todo, id);
        todo, order := todo - {id}, order + [item];
        var normalized := Normalize(item);
        if normalized.Ok? && |loaded| < JOBS_MAX { loaded := loaded[normalized.value.id := normalized.value]; }
      }
    }

    method Start(file: Option<map<string, RawJob>>, now: Instant) returns (ghost order: seq<RawJob>)
      modifies this
      ensures started
      ensures old(started) ==> View() == old(View())
      ensures !old(started) ==> items == Loaded(order) && Sized(items)
      ensures !old(started) && old(state) == map[] && old(runningKeys) == {} ==> View() == Scheduled(items, now)
      ensures file.Some? && !old(started) ==> Visits(order, file.value)
      ensures !old(started) ==> forall id :: id in items ==>
        && id in state && state[id].job == Some(items[id]) && !state[id].running && state[id].runCount == 0
        && state[id].lastRunAt == now && state[id].nextRunAt == now + items[id].interval * 60_000_000_000
    {
      order := [];
      if started { return; }
      started := true;
      items, order := Load(file);
      LoadedIsSized(order);
      Schedule(now);
    }

    method Schedule(now: Instant)
      requires Sized(items)
      modifies this`state
      ensures old(state) == map[] ==> state == Scheduled(items, now).state
      ensures state.Keys == old(state).Keys + items.Keys
      ensures forall id :: id in state && id !in items ==> state[id] == old(state)[id]
      ensures forall id :: id in items ==>
        && id in state && state[id].job == Some(items[id]) && !state[id].running && state[id].runCount == 0
        && state[id].lastRunAt == now && state[id].nextRunAt == now + items[id].interval * 60_000_000_000
    {
      var todo := items.Keys;
      while todo != {}
        invariant todo <= items.Keys && state.Keys == old(state).Keys + (items.Keys - todo)
        invariant forall id :: id in state ==>
          state[id] == if id !in items || id in todo then old(state)[id]
                       else BLANK.(job := Some(items[id]), lastRunAt := now, nextRunAt := After(now, items[id]))
        decreases todo
      {
        var id :| id in todo;
        todo := todo - {id};
        state := state[id := BLANK.(job := Some(items[id]), lastRunAt := now, nextRunAt := After(now, items[id]))];
      }
    }

    // tick: what is due is marked and handed on.
    method Tick(now: Instant) returns (due: seq<Job>, ghost order: seq<string>)
      requires Sized(items)
      modifies this`state, this`runningKeys
      ensures |order| == |items| && forall id :: id in order <==> id in items
      ensures View() == TickAll(old(View()), order, now)
      ensures due == StartedBy(old(View()), order, now)
      // Each job started is a stored item that is enabled, was not running, has a
      // key that was free, and whose next run has come.
      ensures forall i :: 0 <= i < |due| ==>
        && due[i].id in items && due[i] == items[due[i].id] && due[i].enabled
        && !(due[i].id in old(state) && old(state)[due[i].id].running) && Key(due[i]) !in old(runningKeys)
        && now >= if due[i].id in old(state) && old(state)[due[i].id].nextRunAt != 0 then old(state)[due[i].id].nextRunAt
                  else (if due[i].id in old(state) then old(state)[due[i].id].lastRunAt else 0) + due[i].interval * 60_000_000_000
      // Each such item is started, unless its key was taken before or is taken by
      // another start.
      ensures forall id ::
        && id in items && items[id].enabled && !(id in old(state) && old(state)[id].running)
        && (now >= if id in old(state) && old(state)[id].nextRunAt != 0 then old(state)[id].nextRunAt
                   else (if id in old(state) then old(state)[id].lastRunAt else 0) + items[id].interval * 60_000_000_000)
        ==> items[id] in due || Key(items[id]) in old(runningKeys) || exists i :: 0 <= i < |due| && Key(due[i]) == Key(items[id])
      ensures forall i, j :: 0 <= i < j < |due| ==> Key(due[i]) != Key(due[j])
      ensures runningKeys == old(runningKeys) + set i | 0 <= i < |due| :: Key(due[i])
    {
      ghost var rt := View();
      due, order := Sweep(now);
      TickStarts(rt, order, now);
      TickTakesKeys(rt, order, now);
      forall id | id in items && Ready(items, rt.state, id, now)
        ensures items[id] in due || Key(items[id]) in rt.runningKeys || exists i :: 0 <= i < |due| && Key(due[i]) == Key(items[id])
      {
        assert id in order;
      }
    }

    method Sweep(now: Instant) returns (due: seq<Job>, ghost order: seq<string>)
      requires Sized(items)
      modifies this`state, this`runningKeys
      ensures |order| == |items| && forall id :: id in order <==> id in items
      ensures forall i, j :: 0 <= i < j < |order| ==> order[i] != order[j]
      ensures View() == TickAll(old(View()), order, now)
      ensures due == StartedBy(old(View()), order, now)
    {
      due, order := [], [];
      var todo := items.Keys;
      while todo != {}
        invariant todo <= items.Keys && |order| + |todo| == |items.Keys|
        invariant forall id :: id in order <==> id in items && id !in todo
        invariant forall i, j :: 0 <= i < j < |order| ==> order[i] != order[j]
        invariant View() == TickAll(old(View()), order, now)
        invariant due == StartedBy(old(View()), order, now)
        decreases todo
      {
        var id :| id in todo;
        todo := todo - {id};
        assert (order + [id])[..|order|] == order;
        order := order + [id];
        var job, st := items[id], if id in state then state[id] else BLANK;
        var key := Key(job);
        if job.enabled && !st.running && key !in runningKeys {
          var next := st.nextRunAt;
          if next == ZERO { next := st.lastRunAt + job.interval * MINUTE; }
          if next != ZERO && now >= next {
            state := state[id := st.(job := Some(job), running := true)];
            runningKeys := runningKeys + {key};
            due := due + [job];
          }
        }
      }
    }

    method Execute(codec: Codec, job: Job, answers: seq<Response>, now: Instant)
      requires |answers| == RETRY_MAX + 1 && job.interval >= 0
      modifies this`state, this`runningKeys
      ensures View() == Settled(old(View()), job, Executed(codec, job, answers, now))
      ensures runningKeys == old(runningKeys) - {Key(job)} && state.Keys == old(state).Keys + {job.id}
      ensures forall id :: id in state && id != job.id ==> state[id] == old(state)[id]
      ensures var n := if answers[0].error.Some? || answers[0].status >= 500 then 1 else 0;
        var outcome, st := Classify(codec.parse(answers[n].output), job.kind, answers[n]), state[job.id];
        && st.job == Some(job) && !st.running && st.lastRunAt == now && st.nextRunAt == now + job.interval * 60_000_000_000
        && st.outcome == outcome && st.lastOk == (outcome == Success) && st.lastStatus == answers[n].status
        && st.lastOutput == Truncated(codec.trim, answers[n].output) && st.retryCount == n
        && st.lastError == (if answers[n].error.Some? then answers[n].error.value else "")
        && (outcome == Success ==> st.lastGoodAt == now && st.lastGoodStatus == answers[n].status && st.lastGoodOutput == st.lastOutput)
      ensures var st := state[job.id];
        if job.id in old(state) then
          var was := old(state)[job.id];
          && st.runCount == was.runCount + 1 && st.cadence == (if was.runCount == 0 then First else Periodic)
          && (!st.lastOk ==> st.lastGoodAt == was.lastGoodAt && st.lastGoodStatus == was.lastGoodStatus
                             && st.lastGoodOutput == was.lastGoodOutput)
        else
          st.runCount == 1 && st.cadence == First && (!st.lastOk ==> st.lastGoodAt == 0 && st.lastGoodStatus == 0 && st.lastGoodOutput == "")
    {
      var response, retries := Attempt(answers);
      var outcome := Classify(codec.parse(response.output), job.kind, response);
      var st := if job.id in state then state[job.id] else BLANK;
      st := st.(job := Some(job), running := false, lastRunAt := now, lastOk := outcome == Success, lastStatus := response.status,
                lastOutput := Truncated(codec.trim, response.output), lastError := "", outcome := outcome, retryCount := retries);
      st := st.(cadence := if st.runCount == 0 then First else Periodic);
      st := st.(runCount := st.runCount + 1);
      if response.error.Some? { st := st.(lastError := response.error.value); }
      if outcome == Success {
        st := st.(lastGoodAt := now, lastGoodStatus := response.status, lastGoodOutput := st.lastOutput);
      }
      st := st.(nextRunAt := now + job.interval * MINUTE);
      assert st == Finished(StateOf(old(View()), job.id), job, Executed(codec, job, answers, now));
      state := state[job.id := st];
      runningKeys := runningKeys - {Key(job)};
    }

    // saved: the configuration file was written.
    method Configure(raw: RawJob, now: Instant, saved: bool) returns (ok: bool)
      modifies this`items, this`state
      ensures ok <==> Normalize(raw).Ok? && Accepts(old(View()), Normalize(raw).value) && saved
      ensures ok ==> Normalize(raw).value.interval >= 0 && View() == Reconfigured(old(View()), Normalize(raw).value, now)
      ensures !ok ==> View() == old(View())
      ensures ok <==> Normalize(raw).Ok? && (Normalize(raw).value.id in old(items) || |old(items)| < 32) && saved
      ensures ok ==>
        var job := Normalize(raw).value;
        && items == old(items)[job.id := job] && state.Keys == old(state).Keys + {job.id}
        && (forall id :: id in state && id != job.id ==> state[id] == old(state)[id])
        && state[job.id].job == Some(job) && state[job.id].nextRunAt == now + job.interval * 60_000_000_000
        && state[job.id].running == (job.id in old(state) && old(state)[job.id].running)
        && state[job.id].runCount == if job.id in old(state) then old(state)[job.id].runCount else 0
    {
      var n := Normalize(raw);
      if n.Err? { return false; }
      NormalizeIsSized(raw);
      ok := Put(n.value, now, saved);
    }

    method Put(job: Job, now: Instant, saved: bool) returns (ok: bool)
      requires job.interval >= 0
      modifies this`items, this`state
      ensures ok <==> Accepts(old(View()), job) && saved
      ensures View() == if ok then Reconfigured(old(View()), job, now) else old(View())
    {
      if job.id !in items && |items| >= JOBS_MAX { return false; }
      if !saved { return false; }
      items := items[job.id := job];
      var st := if job.id in state then state[job.id] else BLANK;
      state := state[job.id := st.(job := Some(job), nextRunAt := now + job.interval * MINUTE)];
      ok := true;
    }

    method RunNow(id: string) returns (job: Option<Job>)
      modifies this`state, this`runningKeys
      ensures job.Some? <==> id in items && Free(old(View()), id)
      ensures job.Some? ==> job.value == items[id] && View() == Launched(old(View()), id)
      ensures job.None? ==> View() == old(View())
      ensures job.Some? <==> id in items && !(id in old(state) && old(state)[id].running) && Key(items[id]) !in old(runningKeys)
      ensures job.Some? ==> runningKeys == old(runningKeys) + {Key(items[id])} && state.Keys == old(state).Keys + {id}
      ensures job.Some? ==> state[id].running && state[id].job == Some(items[id])
      ensures job.Some? ==> forall other :: other in state && other != id ==> state[other] == old(state)[other]
      ensures job.Some? && id in old(state) ==> state[id] == old(state)[id].(running := true, job := Some(items[id]))
    {
      if id !in items { return None; }
      var mine, st := items[id], if id in state then state[id] else BLANK;
      var key := Key(mine);
      if st.running || key in runningKeys { return None; }
      state := state[id := st.(job := Some(mine), running := true)];
      runningKeys := runningKeys + {key};
      job := Some(mine);
    }
  }

  function StartedBy(rt: Runtime, order: seq<string>, now: Instant): seq<Job>
    requires Sized(rt.items)
  {
    if order == [] then []
    else
      var init, id := order[..|order| - 1], order[|order| - 1];
      StartedBy(rt, init, now) + if Due(TickAll(rt, init, now), id, now) then [rt.items[id]] else []
  }

  // ---- what a tick starts --------------------------------------------------

  // Enabled, idle, and its next run has come: told from the stored items and
  // states before the tick.
  predicate Ready(items: map<string, Job>, state: map<string, JobState>, id: string, now: Instant) {
    && id in items && items[id].enabled && !(id in state && state[id].running)
    && now >= if id in state && state[id].nextRunAt != 0 then state[id].nextRunAt
              else (if id in state then state[id].lastRunAt else 0) + items[id].interval * 60_000_000_000
  }

  function KeysOf(jobs: seq<Job>): set<string> { set i | 0 <= i < |jobs| :: Key(jobs[i]) }

  lemma KeysNext(jobs: seq<Job>, job: Job)
    ensures KeysOf(jobs + [job]) == KeysOf(jobs) + {Key(job)}
  {
    forall i | 0 <= i < |jobs| ensures Key(jobs[i]) in KeysOf(jobs + [job]) { assert (jobs + [job])[i] == jobs[i]; }
    assert (jobs + [job])[|jobs|] == job;
  }

  lemma DueIfReady(rt: Runtime, id: string, now: Instant)
    requires Sized(rt.items) && id in rt.items
    ensures Due(rt, id, now) <==> Ready(rt.items, rt.state, id, now) && Key(rt.items[id]) !in rt.runningKeys
  {}

  lemma TouchOne(r: Runtime, id: string, now: Instant, other: string)
    requires Sized(r.items)
    ensures other != id ==>
              (other in TickOne(r, id, now).state <==> other in r.state) && StateOf(TickOne(r, id, now), other) == StateOf(r, other)
    ensures TickOne(r, id, now).runningKeys == r.runningKeys + if Due(r, id, now) then {Key(r.items[id])} else {}
  {}

  // Halfway through a tick: states of items still to be visited are untouched.
  lemma {:induction false} TickLeavesOthers(rt: Runtime, order: seq<string>, now: Instant, id: string)
    requires Sized(rt.items) && id !in order
    ensures id in TickAll(rt, order, now).state <==> id in rt.state
    ensures StateOf(TickAll(rt, order, now), id) == StateOf(rt, id)
  {
    if order != [] {
      var init, last := order[..|order| - 1], order[|order| - 1];
      assert order == init + [last];
      TickLeavesOthers(rt, init, now, id);
      TouchOne(TickAll(rt, init, now), last, now, id);
    }
  }

  // And the keys are those of the jobs started.
  lemma {:induction false} TickTakesKeys(rt: Runtime, order: seq<string>, now: Instant)
    requires Sized(rt.items)
    ensures TickAll(rt, order, now).runningKeys == rt.runningKeys + KeysOf(StartedBy(rt, order, now))
  {
    if order != [] {
      var init, id := order[..|order| - 1], order[|order| - 1];
      TickTakesKeys(rt, init, now);
      TouchOne(TickAll(rt, init, now), id, now, id);
      if Due(TickAll(rt, init, now), id, now) {
        KeysNext(StartedBy(rt, init, now), rt.items[id]);
      } else {
        assert StartedBy(rt, order, now) == StartedBy(rt, init, now);
      }
    }
  }

  ghost predicate Unlike(jobs: seq<Job>) { forall i, j :: 0 <= i < j < |jobs| ==> Key(jobs[i]) != Key(jobs[j]) }

  // Each job is an item that was ready, with a key that was free.
  ghost predicate FromReady(jobs: seq<Job>, rt: Runtime, now: Instant) {
    forall i :: 0 <= i < |jobs| ==>
      && Ready(rt.items, rt.state, jobs[i].id, now) && rt.items[jobs[i].id] == jobs[i] && Key(jobs[i]) !in rt.runningKeys
  }

  // Each ready item is started, unless its key was taken before or in the tick.
  ghost predicate LeavesNone(jobs: seq<Job>, rt: Runtime, order: seq<string>, now: Instant) {
    forall id :: id in order && Ready(rt.items, rt.state, id, now) ==>
      rt.items[id] in jobs || Key(rt.items[id]) in rt.runningKeys || Key(rt.items[id]) in KeysOf(jobs)
  }

  lemma MoreFromReady(rt: Runtime, jobs: seq<Job>, job: Job, now: Instant)
    requires FromReady(jobs, rt, now) && Ready(rt.items, rt.state, job.id, now) && rt.items[job.id] == job
    requires Key(job) !in rt.runningKeys
    ensures FromReady(jobs + [job], rt, now)
  {}

  lemma MoreUnlike(jobs: seq<Job>, job: Job)
    requires Unlike(jobs) && Key(job) !in KeysOf(jobs)
    ensures Unlike(jobs + [job])
  {
    forall i | 0 <= i < |jobs| ensures Key(jobs[i]) != Key(job) { assert Key(jobs[i]) in KeysOf(jobs); }
  }

  lemma StillLeavesNone(rt: Runtime, init: seq<string>, id: string, jobs: seq<Job>, next: seq<Job>, now: Instant)
    requires id in rt.items && LeavesNone(jobs, rt, init, now)
    requires (forall job :: job in jobs ==> job in next) && KeysOf(jobs) <= KeysOf(next)
    requires Ready(rt.items, rt.state, id, now) ==> rt.items[id] in next || Key(rt.items[id]) in rt.runningKeys + KeysOf(jobs)
    ensures LeavesNone(next, rt, init + [id], now)
  {
    forall other | other in init + [id] && Ready(rt.items, rt.state, other, now)
      ensures rt.items[other] in next || Key(rt.items[other]) in rt.runningKeys || Key(rt.items[other]) in KeysOf(next)
    {
      assert other in init || other == id;
    }
  }

  lemma StartsNext(rt: Runtime, init: seq<string>, id: string, jobs: seq<Job>, next: seq<Job>, now: Instant)
    requires Sized(rt.items) && id in rt.items
    requires FromReady(jobs, rt, now) && LeavesNone(jobs, rt, init, now) && Unlike(jobs)
    requires var starts := Ready(rt.items, rt.state, id, now) && Key(rt.items[id]) !in rt.runningKeys + KeysOf(jobs);
      next == if starts then jobs + [rt.items[id]] else jobs
    ensures FromReady(next, rt, now) && LeavesNone(next, rt, init + [id], now) && Unlike(next)
  {
    if next != jobs {
      var job := rt.items[id];
      KeysNext(jobs, job);
      MoreFromReady(rt, jobs, job, now);
      MoreUnlike(jobs, job);
    }
    StillLeavesNone(rt, init, id, jobs, next, now);
  }

  // A tick starts what is ready, and nothing else.
  lemma {:induction false} TickStarts(rt: Runtime, order: seq<string>, now: Instant)
    requires Sized(rt.items) && (forall id :: id in order ==> id in rt.items)
    requires forall i, j :: 0 <= i < j < |order| ==> order[i] != order[j]
    ensures var jobs := StartedBy(rt, order, now);
      FromReady(jobs, rt, now) && LeavesNone(jobs, rt, order, now) && Unlike(jobs)
  {
    if order != [] {
      var init, id := order[..|order| - 1], order[|order| - 1];
      assert order == init + [id] && forall i :: 0 <= i < |init| ==> init[i] == order[i];
      TickStarts(rt, init, now);
      assert id !in init;
      TickLeavesOthers(rt, init, now, id);
      TickTakesKeys(rt, init, now);
      DueIfReady(TickAll(rt, init, now), id, now);
      StartsNext(rt, init, id, StartedBy(rt, init, now), StartedBy(rt, order, now), now);
    }
  }

  // A tick leaves nothing due behind.
  lemma {:induction false} TickLeavesNoneDue(rt: Runtime, order: seq<string>, now: Instant, id: string)
    requires Sized(rt.items) && id in order
    ensures !Due(TickAll(rt, order, now), id, now)
  {
    var init, last := order[..|order| - 1], order[|order| - 1];
    if id in init { TickLeavesNoneDue(rt, init, now, id); }
  }

  // ---- every run -----------------------------------------------------------

  datatype Event =
    | TickItem(id: string, now: Instant)
    | Manual(id: string)
    | Completion(index: nat, answers: seq<Response>, now: Instant)
    | Configuration(raw: RawJob, now: Instant, saved: bool)

  datatype Entry =
    | SchedulerStart(ids: set<string>, at: Instant)
    | Configured(id: string, at: Instant)
    | Completed(id: string, rec: Record)

  // inflight: the executions that have started and not completed.
  datatype System = System(rt: Runtime, inflight: seq<Job>, log: seq<Entry>)

  function Without<T>(s: seq<T>, i: nat): seq<T>
    requires i < |s|
  {
    s[..i] + s[i + 1..]
  }

  predicate WellSized(s: System) { Sized(s.rt.items) && forall i :: 0 <= i < |s.inflight| ==> s.inflight[i].interval >= MIN_MINUTES }

  function Launch(s: System, id: string): (r: System)
    requires WellSized(s) && id in s.rt.items
    ensures WellSized(r)
  {
    System(Launched(s.rt, id), s.inflight + [s.rt.items[id]], s.log)
  }

  function Settle(s: System, i: nat, rec: Record): (r: System)
    requires WellSized(s) && i < |s.inflight| && rec.attempts > 0
    ensures WellSized(r)
  {
    System(Settled(s.rt, s.inflight[i], rec), Without(s.inflight, i), s.log + [Completed(s.inflight[i].id, rec)])
  }

  function Adopt(s: System, job: Job, now: Instant): (r: System)
    requires WellSized(s) && job.interval >= MIN_MINUTES
    ensures WellSized(r)
  {
    System(Reconfigured(s.rt, job, now), s.inflight, s.log + [Configured(job.id, now)])
  }

  // An event that cannot happen leaves the system as it is.
  function Step(codec: Codec, s: System, e: Event): (r: System)
    requires WellSized(s)
    ensures WellSized(r)
  {
    match e
    case TickItem(id, now) => if Due(s.rt, id, now) then Launch(s, id) else s
    case Manual(id) => if id in s.rt.items && Free(s.rt, id) then Launch(s, id) else s
    case Completion(i, answers, now) =>
      if i < |s.inflight| && |answers| == RETRY_MAX + 1 then Settle(s, i, Executed(codec, s.inflight[i], answers, now)) else s
    case Configuration(raw, now, saved) =>
      var n := Normalize(raw);
      if n.Ok? && Accepts(s.rt, n.value) && saved then
        NormalizeIsSized(raw);
        Adopt(s, n.value, now)
      else s
  }

  function Booted(order: seq<RawJob>, at: Instant): (s: System)
    ensures WellSized(s)
  {
    LoadedIsSized(order);
    System(Scheduled(Loaded(order), at), [], [SchedulerStart(Loaded(order).Keys, at)])
  }

  function Steps(codec: Codec, s: System, events: seq<Event>): (r: System)
    requires WellSized(s)
    ensures WellSized(r)
  {
    if events == [] then s else Step(codec, Steps(codec, s, events[..|events| - 1]), events[|events| - 1])
  }

  function Run(codec: Codec, order: seq<RawJob>, at: Instant, events: seq<Event>): (s: System)
    ensures WellSized(s)
  {
    Steps(codec, Booted(order, at), events)
  }

  function TickItems(order: seq<string>, now: Instant): (r: seq<Event>)
    ensures |r| == |order|
  {
    if order == [] then [] else TickItems(order[..|order| - 1], now) + [TickItem(order[|order| - 1], now)]
  }

  // A whole tick is its visits one after another, and it hands exactly the
  // jobs they start to the executor.
  lemma {:induction false} TickIsItsVisits(codec: Codec, s: System, order: seq<string>, now: Instant)
    requires WellSized(s)
    ensures Steps(codec, s, TickItems(order, now))
         == System(TickAll(s.rt, order, now), s.inflight + StartedBy(s.rt, order, now), s.log)
  {
    if order == [] {
      assert s.inflight + [] == s.inflight;
    } else {
      var init := order[..|order| - 1];
      TickIsItsVisits(codec, s, init, now);
      var events := TickItems(order, now);
      assert events[..|events| - 1] == TickItems(init, now);
      assert s.inflight + StartedBy(s.rt, order, now)
          == s.inflight + StartedBy(s.rt, init, now)
             + (if Due(TickAll(s.rt, init, now), order[|order| - 1], now) then [s.rt.items[order[|order| - 1]]] else []);
    }
  }

  // A tick never starts a job that is disabled at that moment, in any run.
  lemma TickStartsEnabled(codec: Codec, order: seq<RawJob>, at: Instant, events: seq<Event>, id: string, now: Instant)
    ensures var s := Run(codec, order, at, events);
      var after := Run(codec, order, at, events + [TickItem(id, now)]);
      after.inflight == s.inflight
      || (id in s.rt.items && s.rt.items[id].enabled && after.inflight == s.inflight + [s.rt.items[id]])
  {
    var all := events + [TickItem(id, now)];
    assert all[..|all| - 1] == events;
    var s := Run(codec, order, at, events);
    if id in s.rt.items { DueIfReady(s.rt, id, now); }
  }

  // ---- the stored items ----------------------------------------------------

  lemma StepKeepsNormal(codec: Codec, s: System, e: Event)
    requires WellSized(s) && AllNormal(s.rt.items) && |s.rt.items| <= JOBS_MAX
    ensures var items := Step(codec, s, e).rt.items; AllNormal(items) && |items| <= JOBS_MAX
  {
    if e.Configuration? && Normalize(e.raw).Ok? {
      NormalizeIsNormal(e.raw);
      PutKeepsNormal(s.rt.items, Normalize(e.raw).value);
    }
  }

  // Every stored item is a fixpoint of normalization under its own id, and
  // there are never more than 32.
  lemma {:induction false} ItemsStayNormal(codec: Codec, order: seq<RawJob>, at: Instant, events: seq<Event>)
    ensures var items := Run(codec, order, at, events).rt.items; AllNormal(items) && |items| <= JOBS_MAX
  {
    if events == [] {
      LoadedIsNormal(order);
    } else {
      ItemsStayNormal(codec, order, at, events[..|events| - 1]);
      StepKeepsNormal(codec, Run(codec, order, at, events[..|events| - 1]), events[|events| - 1]);
    }
  }

  // ---- single flight -------------------------------------------------------

  function Image<T>(s: seq<T>, f: T -> string): set<string> { set i | 0 <= i < |s| :: f(s[i]) }

  ghost predicate Injective<T>(s: seq<T>, f: T -> string) { forall i, j :: 0 <= i < j < |s| ==> f(s[i]) != f(s[j]) }

  lemma ImageNext<T>(s: seq<T>, x: T, f: T -> string)
    ensures Image(s + [x], f) == Image(s, f) + {f(x)}
    ensures Injective(s, f) && f(x) !in Image(s, f) ==> Injective(s + [x], f)
  {
    assert (s + [x])[|s|] == x;
    forall i | 0 <= i < |s| ensures f(s[i]) in Image(s + [x], f) && f(s[i]) in Image(s, f) { assert (s + [x])[i] == s[i]; }
  }

  lemma ImageWithout<T>(s: seq<T>, i: nat, f: T -> string)
    requires i < |s| && Injective(s, f)
    ensures Image(Without(s, i), f) == Image(s, f) - {f(s[i])}
    ensures Injective(Without(s, i), f)
  {
    var w := Without(s, i);
    forall j | 0 <= j < |s| && j != i ensures f(s[j]) in Image(w, f) {
      assert w[if j < i then j else j - 1] == s[j];
    }
    forall j | 0 <= j < |w| ensures f(w[j]) in Image(s, f) - {f(s[i])} {
      var k := if j < i then j else j + 1;
      assert w[j] == s[k] && (k < i || i < k);
    }
  }

  const ID: Job -> string := (job: Job) => job.id
  const KEY: Job -> string := (job: Job) => Key(job)

  // In-flight executions have different ids and different keys; the running
  // keys are theirs; a job's state says running exactly while it is in flight.
  ghost predicate Flight(s: System) {
    && Injective(s.inflight, ID) && Injective(s.inflight, KEY)
    && s.rt.runningKeys == Image(s.inflight, KEY)
    && forall id :: StateOf(s.rt, id).running <==> id in Image(s.inflight, ID)
  }

  lemma LaunchKeepsFlight(s: System, id: string)
    requires WellSized(s) && Flight(s) && id in s.rt.items && Free(s.rt, id)
    ensures Flight(Launch(s, id))
  {
    var job := s.rt.items[id];
    assert job.id == id && ID(job) == id && KEY(job) == Key(job);
    ImageNext(s.inflight, job, ID);
    ImageNext(s.inflight, job, KEY);
    var t := Launch(s, id);
    forall other ensures StateOf(t.rt, other).running <==> other in Image(t.inflight, ID) {
      assert StateOf(s.rt, other).running <==> other in Image(s.inflight, ID);
    }
  }

  lemma SettleKeepsFlight(s: System, i: nat, rec: Record)
    requires WellSized(s) && Flight(s) && i < |s.inflight| && rec.attempts > 0
    ensures Flight(Settle(s, i, rec))
  {
    var job := s.inflight[i];
    assert ID(job) == job.id && KEY(job) == Key(job);
    ImageWithout(s.inflight, i, ID);
    ImageWithout(s.inflight, i, KEY);
    var t := Settle(s, i, rec);
    forall other ensures StateOf(t.rt, other).running <==> other in Image(t.inflight, ID) {
      assert StateOf(s.rt, other).running <==> other in Image(s.inflight, ID);
    }
  }

  lemma AdoptKeepsFlight(s: System, job: Job, now: Instant)
    requires WellSized(s) && Flight(s) && job.interval >= MIN_MINUTES
    ensures Flight(Adopt(s, job, now))
  {
    var t := Adopt(s, job, now);
    forall other ensures StateOf(t.rt, other).running <==> other in Image(t.inflight, ID) {
      assert StateOf(t.rt, other).running == StateOf(s.rt, other).running;
    }
  }

  lemma StepKeepsFlight(codec: Codec, s: System, e: Event)
    requires WellSized(s) && Flight(s)
    ensures Flight(Step(codec, s, e))
  {
    match e
    case TickItem(id, now) => if Due(s.rt, id, now) { LaunchKeepsFlight(s, id); }
    case Manual(id) => if id in s.rt.items && Free(s.rt, id) { LaunchKeepsFlight(s, id); }
    case Completion(i, answers, now) =>
      if i < |s.inflight| && |answers| == RETRY_MAX + 1 { SettleKeepsFlight(s, i, Executed(codec, s.inflight[i], answers, now)); }
    case Configuration(raw, now, saved) =>
      if Normalize(raw).Ok? {
        NormalizeIsSized(raw);
        AdoptKeepsFlight(s, Normalize(raw).value, now);
      }
  }

  // In every interleaving of ticks, manual runs, reconfigurations (also of a
  // running job's kind or target) and completions.
  lemma {:induction false} SingleFlight(codec: Codec, order: seq<RawJob>, at: Instant, events: seq<Event>)
    ensures Flight(Run(codec, order, at, events))
  {
    if events == [] {
      var s := Booted(order, at);
      forall id ensures StateOf(s.rt, id).running <==> id in Image(s.inflight, ID) {}
    } else {
      SingleFlight(codec, order, at, events[..|events| - 1]);
      StepKeepsFlight(codec, Run(codec, order, at, events[..|events| - 1]), events[|events| - 1]);
    }
  }

  // No two executions of the same kind and target overlap.
  lemma NoTwoAlike(codec: Codec, order: seq<RawJob>, at: Instant, events: seq<Event>, i: nat, j: nat)
    ensures var inflight := Run(codec, order, at, events).inflight;
      i < j < |inflight| ==>
        inflight[i].id != inflight[j].id && (inflight[i].kind != inflight[j].kind || inflight[i].target != inflight[j].target)
  {
    var inflight := Run(codec, order, at, events).inflight;
    SingleFlight(codec, order, at, events);
    assert i < j < |inflight| ==> ID(inflight[i]) != ID(inflight[j]) && KEY(inflight[i]) != KEY(inflight[j]);
  }

  // ---- restart-storm guard -------------------------------------------------

  // When the job was last scheduled afresh: at its last completion, its last
  // configuration or the start of the scheduler, whichever came last.
  function LastTouch(log: seq<Entry>, id: string): Option<Instant> {
    if log == [] then None
    else match log[|log| - 1]
      case SchedulerStart(ids, at) => if id in ids then Some(at) else LastTouch(log[..|log| - 1], id)
      case Configured(other, at) => if other == id then Some(at) else LastTouch(log[..|log| - 1], id)
      case Completed(other, rec) => if other == id then Some(rec.at) else LastTouch(log[..|log| - 1], id)
  }

  ghost predicate GuardAt(s: System, id: string) {
    id in s.rt.items ==>
      var touch := LastTouch(s.log, id);
      touch.Some? && StateOf(s.rt, id).nextRunAt >= touch.value + MIN_MINUTES * MINUTE
  }

  lemma GuardStep(codec: Codec, s: System, e: Event, id: string)
    requires WellSized(s) && GuardAt(s, id)
    ensures GuardAt(Step(codec, s, e), id)
  {
    var t := Step(codec, s, e);
    match e
    case TickItem(_, _) =>
    case Manual(_) =>
    case Completion(i, answers, now) => assert t == s || t.log[..|t.log| - 1] == s.log;
    case Configuration(raw, now, saved) =>
      if Normalize(raw).Ok? { NormalizeIsSized(raw); }
      assert t == s || t.log[..|t.log| - 1] == s.log;
  }

  lemma {:induction false} GuardHolds(codec: Codec, order: seq<RawJob>, at: Instant, events: seq<Event>, id: string)
    ensures GuardAt(Run(codec, order, at, events), id)
  {
    if events == [] {
      LoadedIsSized(order);
    } else {
      GuardHolds(codec, order, at, events[..|events| - 1], id);
      GuardStep(codec, Run(codec, order, at, events[..|events| - 1]), events[|events| - 1], id);
    }
  }

  // A timer tick starts no job within 15 minutes of the newest of these entries.
  lemma NotSoonAfterLastTouch(codec: Codec, order: seq<RawJob>, at: Instant, events: seq<Event>, id: string, now: Instant)
    ensures var s := Run(codec, order, at, events);
      Due(s.rt, id, now) ==> var touch := LastTouch(s.log, id); touch.Some? && now >= touch.value + MIN_MINUTES * MINUTE
  {
    GuardHolds(codec, order, at, events, id);
  }

  function TouchOf(e: Entry, id: string): Option<Instant> {
    match e
    case SchedulerStart(ids, at) => if id in ids then Some(at) else None
    case Configured(other, at) => if other == id then Some(at) else None
    case Completed(other, rec) => if other == id then Some(rec.at) else None
  }

  // No completion or configuration of the job is more than d earlier than an
  // entry of it before.
  ghost predicate LateBy(log: seq<Entry>, id: string, d: int) {
    forall i, j :: 0 <= i < j < |log| && TouchOf(log[i], id).Some? && TouchOf(log[j], id).Some? ==>
      TouchOf(log[i], id).value <= TouchOf(log[j], id).value + d
  }

  lemma {:induction false} LastIsLatest(log: seq<Entry>, id: string, d: nat, k: nat)
    requires LateBy(log, id, d) && k < |log| && TouchOf(log[k], id).Some?
    ensures LastTouch(log, id).Some? && TouchOf(log[k], id).value <= LastTouch(log, id).value + d
  {
    var last := |log| - 1;
    if TouchOf(log[last], id).None? {
      LastIsLatest(log[..last], id, d, k);
    } else {
      assert LastTouch(log, id) == TouchOf(log[last], id);
    }
  }

  // The instant is 15 minutes after every scheduler start, configuration and
  // completion of the job.
  ghost predicate ClearOf(log: seq<Entry>, id: string, now: Instant, slack: int) {
    forall k :: 0 <= k < |log| && TouchOf(log[k], id).Some? ==> now + slack >= TouchOf(log[k], id).value + MIN_MINUTES * MINUTE
  }

  // The storm guard: what is at most d late starts at most d too early.
  lemma NoRestartStorm(codec: Codec, order: seq<RawJob>, at: Instant, events: seq<Event>, id: string, now: Instant, d: nat)
    ensures var s := Run(codec, order, at, events);
      LateBy(s.log, id, d) && Due(s.rt, id, now) ==> ClearOf(s.log, id, now, d)
  {
    var s := Run(codec, order, at, events);
    if LateBy(s.log, id, d) && Due(s.rt, id, now) {
      NotSoonAfterLastTouch(codec, order, at, events, id, now);
      forall k | 0 <= k < |s.log| && TouchOf(s.log[k], id).Some?
        ensures now + d >= TouchOf(s.log[k], id).value + MIN_MINUTES * MINUTE
      {
        LastIsLatest(s.log, id, d, k);
      }
    }
  }

  // The tick's fallback for a missing next run is never taken.
  lemma NextRunIsSet(codec: Codec, order: seq<RawJob>, at: Instant, events: seq<Event>, id: string)
    ensures var rt := Run(codec, order, at, events).rt; id in rt.items ==> StateOf(rt, id).nextRunAt != ZERO
  {
    GuardHolds(codec, order, at, events, id);
  }

  // ---- run history ---------------------------------------------------------

  // The completed executions of one job.
  function Done(log: seq<Entry>, id: string): seq<Record> {
    if log == [] then []
    else
      var init, e := log[..|log| - 1], log[|log| - 1];
      Done(init, id) + if e.Completed? && e.id == id then [e.rec] else []
  }

  function LastGood(done: seq<Record>): Option<Record> {
    if done == [] then None
    else if done[|done| - 1].outcome == Success then Some(done[|done| - 1])
    else LastGood(done[..|done| - 1])
  }

  predicate ShowsLast(st: JobState, done: seq<Record>) {
    if done == [] then
      st.cadence == NoCadence && st.retryCount == 0 && st.outcome == NeverRun && !st.lastOk && st.lastStatus == 0
      && st.lastOutput == "" && st.lastError == ""
    else
      var last := done[|done| - 1];
      && st.cadence == (if |done| == 1 then First else Periodic)
      && st.retryCount == last.attempts - 1 && Tried(last)
      && st.lastRunAt == last.at && st.outcome == last.outcome && st.lastOk == (last.outcome == Success)
      && st.lastStatus == last.response.status && st.lastOutput == last.shown
      && st.lastError == if last.response.error.Some? then last.response.error.value else ""
  }

  predicate ShowsGood(st: JobState, done: seq<Record>) {
    match LastGood(done)
    case None => st.lastGoodAt == ZERO && st.lastGoodStatus == 0 && st.lastGoodOutput == ""
    case Some(r) => st.lastGoodAt == r.at && st.lastGoodStatus == r.response.status && st.lastGoodOutput == r.shown
  }

  predicate HistoryOf(st: JobState, done: seq<Record>) {
    st.runCount == |done| && ShowsLast(st, done) && ShowsGood(st, done)
  }

  predicate HistoryAt(s: System, id: string) { HistoryOf(StateOf(s.rt, id), Done(s.log, id)) }

  lemma DoneNext(log: seq<Entry>, e: Entry, id: string)
    ensures Done(log + [e], id) == if e.Completed? && e.id == id then Done(log, id) + [e.rec] else Done(log, id)
  {
    assert (log + [e])[..|log + [e]| - 1] == log;
  }

  lemma FinishedShows(st: JobState, done: seq<Record>, job: Job, rec: Record)
    requires HistoryOf(st, done) && job.interval >= 0 && Tried(rec)
    ensures HistoryOf(Finished(st, job, rec), done + [rec])
  {
    assert (done + [rec])[..|done + [rec]| - 1] == done;
  }

  // Launching and reconfiguring touch no history.
  lemma HistoryStays(st: JobState, next: JobState, done: seq<Record>)
    requires HistoryOf(st, done) && next == st.(job := next.job, running := next.running, nextRunAt := next.nextRunAt)
    ensures HistoryOf(next, done)
  {}

  lemma LaunchKeepsHistory(s: System, id: string, other: string)
    requires WellSized(s) && id in s.rt.items && HistoryAt(s, other)
    ensures HistoryAt(Launch(s, id), other)
  {
    HistoryStays(StateOf(s.rt, other), StateOf(Launch(s, id).rt, other), Done(s.log, other));
  }

  lemma SettleKeepsHistory(s: System, i: nat, rec: Record, id: string)
    requires WellSized(s) && i < |s.inflight| && Tried(rec) && HistoryAt(s, id)
    ensures HistoryAt(Settle(s, i, rec), id)
  {
    var job := s.inflight[i];
    DoneNext(s.log, Completed(job.id, rec), id);
    if job.id == id {
      FinishedShows(StateOf(s.rt, id), Done(s.log, id), job, rec);
      assert StateOf(Settle(s, i, rec).rt, id) == Finished(StateOf(s.rt, id), job, rec);
    } else {
      assert StateOf(Settle(s, i, rec).rt, id) == StateOf(s.rt, id);
    }
  }

  lemma AdoptKeepsHistory(s: System, job: Job, now: Instant, id: string)
    requires WellSized(s) && job.interval >= MIN_MINUTES && HistoryAt(s, id)
    ensures HistoryAt(Adopt(s, job, now), id)
  {
    DoneNext(s.log, Configured(job.id, now), id);
    HistoryStays(StateOf(s.rt, id), StateOf(Adopt(s, job, now).rt, id), Done(s.log, id));
  }

  lemma StepKeepsHistory(codec: Codec, s: System, e: Event, id: string)
    requires WellSized(s) && HistoryAt(s, id)
    ensures HistoryAt(Step(codec, s, e), id)
  {
    match e
    case TickItem(other, now) => if Due(s.rt, other, now) { LaunchKeepsHistory(s, other, id); }
    case Manual(other) => if other in s.rt.items { LaunchKeepsHistory(s, other, id); }
    case Completion(i, answers, now) =>
      if i < |s.inflight| && |answers| == RETRY_MAX + 1 { SettleKeepsHistory(s, i, Executed(codec, s.inflight[i], answers, now), id); }
    case Configuration(raw, now, saved) =>
      if Normalize(raw).Ok? {
        NormalizeIsSized(raw);
        AdoptKeepsHistory(s, Normalize(raw).value, now, id);
      }
  }

  // A job's state always tells its completions: how many there were, the last
  // one, whether it took a second call, and the last good one.
  lemma {:induction false} HistoryIsKept(codec: Codec, order: seq<RawJob>, at: Instant, events: seq<Event>, id: string)
    ensures HistoryAt(Run(codec, order, at, events), id)
  {
    if events == [] {
      DoneNext([], SchedulerStart(Loaded(order).Keys, at), id);
      assert [] + [SchedulerStart(Loaded(order).Keys, at)] == Booted(order, at).log;
    } else {
      HistoryIsKept(codec, order, at, events[..|events| - 1], id);
      StepKeepsHistory(codec, Run(codec, order, at, events[..|events| - 1]), events[|events| - 1], id);
    }
  }

  predicate IsCut(codec: Codec, e: Entry) { e.Completed? ==> e.rec.shown == Truncated(codec.trim, e.rec.response.output) }

  ghost predicate AllCut(codec: Codec, log: seq<Entry>) { forall k :: 0 <= k < |log| ==> IsCut(codec, log[k]) }

  lemma CutNext(codec: Codec, log: seq<Entry>, e: Entry)
    requires AllCut(codec, log) && IsCut(codec, e)
    ensures AllCut(codec, log + [e])
  {}

  lemma StepKeepsCut(codec: Codec, s: System, e: Event)
    requires WellSized(s) && AllCut(codec, s.log)
    ensures AllCut(codec, Step(codec, s, e).log)
  {
    match e
    case Completion(i, answers, now) =>
      if i < |s.inflight| && |answers| == RETRY_MAX + 1 {
        CutNext(codec, s.log, Completed(s.inflight[i].id, Executed(codec, s.inflight[i], answers, now)));
      }
    case Configuration(raw, now, _) =>
      if Normalize(raw).Ok? { CutNext(codec, s.log, Configured(Normalize(raw).value.id, now)); }
    case TickItem(_, _) =>
    case Manual(_) =>
  }

  // What is kept of an output is the output of the record, trimmed and cut.
  lemma {:induction false} RecordsAreCut(codec: Codec, order: seq<RawJob>, at: Instant, events: seq<Event>)
    ensures AllCut(codec, Run(codec, order, at, events).log)
  {
    if events != [] {
      RecordsAreCut(codec, order, at, events[..|events| - 1]);
      StepKeepsCut(codec, Run(codec, order, at, events[..|events| - 1]), events[|events| - 1]);
    }
  }
}
