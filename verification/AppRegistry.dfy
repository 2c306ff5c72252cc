// The registry of App Center action jobs: one active job, and a bounded number
// of finished ones, the newest.

module AppRegistry {
  import opened Text
  import opened Orders

  type Instant = nat

  const RETENTION: nat := 64
  const MAX_LINES: nat := 320
  const LINE_MAX: nat := 2048

  datatype JobState = Queued | Running | Succeeded | Failed | Cancelled

  predicate Terminal(s: JobState) { s.Succeeded? || s.Failed? || s.Cancelled? }

  datatype Job = Job(state: JobState, startedAt: Instant, completedAt: Instant, lines: seq<string>)

  // active is "" when no job is.
  datatype Registry = Registry(active: string, jobs: map<string, Job>)

  datatype TerminalJob = TerminalJob(id: string, completedAt: Instant, startedAt: Instant)

  function RecordOf(id: string, job: Job): TerminalJob { TerminalJob(id, job.completedAt, job.startedAt) }

  predicate Newer(a: TerminalJob, b: TerminalJob) {
    if a.completedAt != b.completedAt then a.completedAt > b.completedAt
    else if a.startedAt != b.startedAt then a.startedAt > b.startedAt
    else Less(b.id, a.id)
  }

  const NEWER: (TerminalJob, TerminalJob) -> bool := (a: TerminalJob, b: TerminalJob) => Newer(a, b)

  lemma NewerIsTotal()
    ensures StrictTotal(NEWER)
  {
    forall x ensures !NEWER(x, x) { LessIrreflexive(x.id); }
    forall x, y ensures x == y || NEWER(x, y) || NEWER(y, x) { LessTotal(x.id, y.id); }
    forall x, y, z | NEWER(x, y) && NEWER(y, z) ensures NEWER(x, z) {
      if Less(z.id, y.id) && Less(y.id, x.id) { LessTransitive(z.id, y.id, x.id); }
    }
  }

  predicate Prunable(r: Registry, id: string) { id in r.jobs && id != r.active && Terminal(r.jobs[id].state) }

  function PrunableIds(r: Registry): set<string> { set id | id in r.jobs && Prunable(r, id) }

  function Records(r: Registry): set<TerminalJob> { set id | id in r.jobs && Prunable(r, id) :: RecordOf(id, r.jobs[id]) }

  // The finished jobs that stay: the newest, at most 64.
  ghost function Retained(r: Registry): (kept: set<TerminalJob>)
    ensures kept <= Records(r)
    ensures |kept| == if |Records(r)| > RETENTION then RETENTION else |Records(r)|
    ensures forall x, y :: x in kept && y in Records(r) - kept ==> NEWER(x, y)
  {
    NewerIsTotal();
    if |Records(r)| <= RETENTION then Records(r) else First(Records(r), NEWER, RETENTION)
  }

  ghost function Pruned(r: Registry): Registry {
    r.(jobs := map id | id in r.jobs && (Prunable(r, id) ==> RecordOf(id, r.jobs[id]) in Retained(r)) :: r.jobs[id])
  }

  // appendLine keeps the last lines.
  function LastLines(lines: seq<string>): seq<string> {
    if |lines| > MAX_LINES then lines[|lines| - MAX_LINES..] else lines
  }

  // A character of a line stands for a byte.
  function Clipped(text: string): string { if |text| > LINE_MAX then text[..LINE_MAX] + "..." else text }

  function WithState(job: Job, state: JobState, now: Instant): Job {
    job.(state := state, completedAt := if Terminal(state) then now else job.completedAt)
  }

  // Cancellation wins over the deadline, and both over the action's own result.
  function EndState(cancelled: bool, timedOut: bool, failed: bool): (s: JobState)
    ensures Terminal(s) && (s.Succeeded? <==> !cancelled && !timedOut && !failed) && (s.Cancelled? <==> cancelled)
  {
    if cancelled then Cancelled else if timedOut || failed then Failed else Succeeded
  }

  // ---- the program ---------------------------------------------------------

  // sort.Slice: some sorted permutation.
  method SortSlice<T(!new)>(s: seq<T>, before: (T, T) -> bool) returns (t: seq<T>)
    requires StrictWeak(before)
    ensures multiset(t) == multiset(s) && Sorted(t, before)
  {
    t := Sort(s, before);
    SortKeeps(s, before);
    SortSorts(s, before);
  }

  class AppActions {
    var active: string
    var jobs: map<string, Job>
    // strings.TrimSpace
    const trim: string -> string

    function View(): Registry
      reads this
    {
      Registry(active, jobs)
    }

    constructor (trim: string -> string)
      ensures View() == Registry("", map[]) && this.trim == trim
    {
      active, jobs := "", map[];
      this.trim := trim;
    }

    // id: the next identifier, never used before.
    method Start(id: string, now: Instant) returns (ok: bool)
      requires id !in jobs
      modifies this
      ensures ok <==> old(active) == ""
      ensures View() == if ok then Registry(id, old(jobs)[id := Job(Queued, now, 0, [])]) else old(View())
    {
      if active != "" { return false; }
      jobs := jobs[id := Job(Queued, now, 0, [])];
      active := id;
      ok := true;
    }

    method SetState(id: string, state: JobState, now: Instant)
      requires id in jobs
      modifies this`jobs
      ensures jobs == old(jobs)[id := WithState(old(jobs)[id], state, now)]
      ensures jobs[id].state == state && jobs[id].startedAt == old(jobs)[id].startedAt && jobs[id].lines == old(jobs)[id].lines
      ensures jobs[id].completedAt == if state == Queued || state == Running then old(jobs)[id].completedAt else now
    {
      var job := jobs[id].(state := state);
      if Terminal(state) { job := job.(completedAt := now); }
      jobs := jobs[id := job];
    }

    // The end of runAppActionJob: how the context ended, and whether the action failed.
    method Finish(id: string, cancelled: bool, timedOut: bool, failed: bool, now: Instant)
      requires id in jobs
      modifies this`jobs
      ensures jobs == old(jobs)[id := WithState(old(jobs)[id], EndState(cancelled, timedOut, failed), now)]
      ensures jobs[id].completedAt == now
      ensures jobs[id].state == if cancelled then Cancelled else if timedOut || failed then Failed else Succeeded
    {
      if cancelled {
        SetState(id, Cancelled, now);
      } else if timedOut {
        SetState(id, Failed, now);
      } else if failed {
        SetState(id, Failed, now);
      } else {
        SetState(id, Succeeded, now);
      }
    }

    method AppendLine(id: string, line: string)
      requires id in jobs && |jobs[id].lines| <= MAX_LINES
      modifies this`jobs
      ensures jobs == if trim(line) == "" then old(jobs)
                      else old(jobs)[id := old(jobs)[id].(lines := LastLines(old(jobs)[id].lines + [Clipped(trim(line))]))]
      ensures trim(line) != "" ==>
        var text := if |trim(line)| > 2048 then trim(line)[..2048] + "..." else trim(line);
        var all := old(jobs)[id].lines + [text];
        jobs[id].lines == if |all| > 320 then all[|all| - 320..] else all
    {
      var text := trim(line);
      if text == "" { return; }
      if |text| > LINE_MAX { text := text[..LINE_MAX] + "..."; }
      var lines := jobs[id].lines + [text];
      if |lines| > MAX_LINES { lines := lines[|lines| - MAX_LINES..]; }
      jobs := jobs[id := jobs[id].(lines := lines)];
    }

    method Release(id: string)
      modifies this`active
      ensures active == if old(active) == id then "" else old(active)
    {
      if active == id { active := ""; }
    }

    method Collect() returns (terminal: seq<TerminalJob>)
      ensures Distinct(terminal) && (set x | x in terminal) == Records(View())
    {
      terminal := [];
      var todo := jobs.Keys;
      while todo != {}
        invariant todo <= jobs.Keys && Distinct(terminal)
        invariant forall x :: x in terminal <==> x.id in jobs && x.id !in todo && Prunable(View(), x.id) && x == RecordOf(x.id, jobs[x.id])
        decreases todo
      {
        var id :| id in todo;
        todo := todo - {id};
        if id != active && Terminal(jobs[id].state) {
          assert forall x :: x in terminal ==> x.id != id;
          terminal := terminal + [RecordOf(id, jobs[id])];
        }
      }
      assert forall x :: x in terminal <==> x in Records(View());
    }

    method Prune()
      modifies this`jobs
      ensures View() == Pruned(old(View()))
      ensures forall id :: id in jobs ==> id in old(jobs) && jobs[id] == old(jobs)[id]
      // What goes is finished and not active, 64 such jobs stay, and none of
      // them ended earlier.
      ensures forall id :: id in old(jobs) && id !in jobs ==>
        && id != active && (old(jobs)[id].state == Succeeded || old(jobs)[id].state == Failed || old(jobs)[id].state == Cancelled)
        && forall other :: other in jobs && other != active && jobs[other].state != Queued && jobs[other].state != Running ==>
             || old(jobs)[id].completedAt < jobs[other].completedAt
             || (old(jobs)[id].completedAt == jobs[other].completedAt && old(jobs)[id].startedAt < jobs[other].startedAt)
             || (old(jobs)[id].completedAt == jobs[other].completedAt && old(jobs)[id].startedAt == jobs[other].startedAt && Less(id, other))
      ensures |set id | id in jobs && id != active && jobs[id].state in {Succeeded, Failed, Cancelled}| <= 64
      ensures jobs == old(jobs) || |set id | id in jobs && id != active && jobs[id].state in {Succeeded, Failed, Cancelled}| == 64
    {
      ghost var r := View();
      DropOld();
      PrunedInFields(r);
    }

    method DropOld()
      modifies this`jobs
      ensures View() == Pruned(old(View()))
    {
      var terminal := Collect();
      DistinctSetSize(terminal);
      if |terminal| <= RETENTION { return; }
      NewerIsTotal();
      TotalIsWeak(NEWER);
      var sorted := SortSlice(terminal, NEWER);
      SortedCut(terminal, sorted, View());
      DropTail(sorted);
    }

    method DropTail(sorted: seq<TerminalJob>)
      requires Distinct(sorted) && |sorted| > RETENTION
      requires (set x | x in sorted) == Records(View()) && (set x | x in sorted[..RETENTION]) == Retained(View())
      modifies this`jobs
      ensures View() == Pruned(old(View()))
    {
      ghost var before := View();
      for i := RETENTION to |sorted|
        invariant active == before.active
        invariant forall id :: id in jobs <==> id in before.jobs && forall k :: RETENTION <= k < i ==> sorted[k].id != id
        invariant forall id :: id in jobs ==> jobs[id] == before.jobs[id]
      {
        jobs := jobs - {sorted[i].id};
      }
      DroppedAre(sorted, before, jobs);
    }
  }

  lemma SortedCut(terminal: seq<TerminalJob>, sorted: seq<TerminalJob>, r: Registry)
    requires Distinct(terminal) && (set x | x in terminal) == Records(r) && |terminal| > RETENTION
    requires multiset(sorted) == multiset(terminal) && Sorted(sorted, NEWER)
    ensures Distinct(sorted) && |sorted| == |terminal| && (set x | x in sorted) == Records(r)
    ensures (set x | x in sorted[..RETENTION]) == Retained(r)
  {
    assert |multiset(sorted)| == |sorted| && |multiset(terminal)| == |terminal|;
    DistinctCounts(terminal);
    DistinctCounts(sorted);
    SameMembers(sorted, terminal);
    assert (set x | x in sorted) == (set x | x in terminal);
    DistinctSetSize(terminal);
    NewerIsTotal();
    PrefixIsCut(sorted, NEWER, RETENTION);
    var head := set x | x in sorted[..RETENTION];
    CutIsUnique(Records(r), NEWER, RETENTION, head, Retained(r));
  }

  lemma DroppedAre(sorted: seq<TerminalJob>, r: Registry, left: map<string, Job>)
    requires Distinct(sorted) && |sorted| > RETENTION
    requires (set x | x in sorted) == Records(r) && (set x | x in sorted[..RETENTION]) == Retained(r)
    requires forall id :: id in left <==> id in r.jobs && forall k :: RETENTION <= k < |sorted| ==> sorted[k].id != id
    requires forall id :: id in left ==> left[id] == r.jobs[id]
    ensures Registry(r.active, left) == Pruned(r)
  {
    forall id | id in r.jobs ensures id in left <==> (Prunable(r, id) ==> RecordOf(id, r.jobs[id]) in Retained(r)) {
      var rec := RecordOf(id, r.jobs[id]);
      if id !in left {
        var k :| RETENTION <= k < |sorted| && sorted[k].id == id;
        assert sorted[k] in Records(r) && sorted[k] == rec;
        forall i | 0 <= i < RETENTION ensures sorted[..RETENTION][i] != rec { assert sorted[i] != sorted[k]; }
      } else if Prunable(r, id) {
        assert rec in Records(r);
        var k :| 0 <= k < |sorted| && sorted[k] == rec;
        assert k < RETENTION && sorted[..RETENTION][k] == rec;
      }
    }
    assert left == Pruned(r).jobs;
  }

  // What pruning keeps: the active job, every unfinished job, and of the other
  // finished jobs the newest 64. No finished job is dropped for an older one.
  lemma PruneKeepsNewest(r: Registry, id: string)
    requires id in r.jobs
    ensures !Prunable(r, id) ==> id in Pruned(r).jobs
    ensures id in Pruned(r).jobs ==> Pruned(r).jobs[id] == r.jobs[id]
    ensures id !in Pruned(r).jobs ==>
      forall other :: other in Pruned(r).jobs && Prunable(r, other) ==> Newer(RecordOf(other, r.jobs[other]), RecordOf(id, r.jobs[id]))
    ensures id !in Pruned(r).jobs ==>
      forall other :: other in Pruned(r).jobs && Prunable(r, other) ==>
        || r.jobs[other].completedAt > r.jobs[id].completedAt
        || (r.jobs[other].completedAt == r.jobs[id].completedAt && r.jobs[other].startedAt > r.jobs[id].startedAt)
        || (r.jobs[other].completedAt == r.jobs[id].completedAt && r.jobs[other].startedAt == r.jobs[id].startedAt && Less(id, other))
  {
    if id !in Pruned(r).jobs {
      assert RecordOf(id, r.jobs[id]) in Records(r);
      forall other | other in Pruned(r).jobs && Prunable(r, other) ensures Newer(RecordOf(other, r.jobs[other]), RecordOf(id, r.jobs[id])) {
        assert NEWER(RecordOf(other, r.jobs[other]), RecordOf(id, r.jobs[id]));
      }
    }
  }

  lemma PrunedInFields(r: Registry)
    ensures var left := Pruned(r).jobs;
      && (forall id :: id in left ==> id in r.jobs && left[id] == r.jobs[id])
      && (forall id :: id in r.jobs && id !in left ==>
            && id != r.active && (r.jobs[id].state == Succeeded || r.jobs[id].state == Failed || r.jobs[id].state == Cancelled)
            && forall other :: other in left && other != r.active && left[other].state != Queued && left[other].state != Running ==>
                 || r.jobs[id].completedAt < left[other].completedAt
                 || (r.jobs[id].completedAt == left[other].completedAt && r.jobs[id].startedAt < left[other].startedAt)
                 || (r.jobs[id].completedAt == left[other].completedAt && r.jobs[id].startedAt == left[other].startedAt && Less(id, other)))
      && var done := set id | id in left && id != r.active && left[id].state in {Succeeded, Failed, Cancelled};
         |done| <= 64 && (left == r.jobs || |done| == 64)
  {
    var left := Pruned(r).jobs;
    forall id | id in r.jobs ensures
      id !in left ==>
        && id != r.active && (r.jobs[id].state == Succeeded || r.jobs[id].state == Failed || r.jobs[id].state == Cancelled)
        && forall other :: other in left && Prunable(r, other) ==> Newer(RecordOf(other, r.jobs[other]), RecordOf(id, r.jobs[id]))
    {
      PruneKeepsNewest(r, id);
    }
    PrunedSize(r);
    assert (set id | id in left && id != r.active && left[id].state in {Succeeded, Failed, Cancelled}) == PrunableIds(Pruned(r));
  }

  lemma RecordsSize(r: Registry)
    ensures |Records(r)| == |PrunableIds(r)|
  {
    var f := (id: string) => if id in r.jobs then RecordOf(id, r.jobs[id]) else TerminalJob(id, 0, 0);
    var image := set id | id in PrunableIds(r) :: f(id);
    forall id | id in r.jobs && Prunable(r, id) ensures RecordOf(id, r.jobs[id]) in image { assert f(id) == RecordOf(id, r.jobs[id]); }
    assert Records(r) == image;
    SameSize(PrunableIds(r), image, f);
  }

  lemma {:induction false} SameSize<A, B>(a: set<A>, b: set<B>, f: A -> B)
    requires b == set x | x in a :: f(x)
    requires forall x, y :: x in a && y in a && f(x) == f(y) ==> x == y
    ensures |a| == |b|
    decreases |a|
  {
    if a == {} {
      assert b == {};
    } else {
      var x :| x in a;
      var rest := a - {x};
      var image := set y | y in rest :: f(y);
      assert image == b - {f(x)};
      SameSize(rest, image, f);
    }
  }

  lemma PrunedSize(r: Registry)
    ensures |PrunableIds(Pruned(r))| <= RETENTION
    ensures Pruned(r).jobs == r.jobs || |PrunableIds(Pruned(r))| == RETENTION
  {
    var p := Pruned(r);
    RecordsSize(p);
    forall x | x in Records(p) ensures x in Retained(r) { assert Prunable(r, x.id) && x == RecordOf(x.id, r.jobs[x.id]); }
    forall x | x in Retained(r) ensures x in Records(p) {
      assert x in Records(r) && Prunable(r, x.id) && x == RecordOf(x.id, r.jobs[x.id]);
      assert Prunable(p, x.id) && p.jobs[x.id] == r.jobs[x.id];
    }
    assert Records(p) == Retained(r);
    if |Records(r)| <= RETENTION {
      forall id | id in r.jobs ensures id in p.jobs { assert Prunable(r, id) ==> RecordOf(id, r.jobs[id]) in Records(r); }
      assert p.jobs == r.jobs;
    }
  }

  // ---- every run -----------------------------------------------------------

  // How far the goroutine of a job has come.
  datatype Stage = Fresh | Working | Ended | Released | Over

  // out: every line a job was given, as it is kept. A printed text is a line that
  // trimming has not emptied.
  datatype System = System(reg: Registry, stage: map<string, Stage>, out: map<string, seq<string>>)

  datatype Event =
    | Start(id: string, now: Instant)
    | Begin(id: string, now: Instant)
    | Print(id: string, text: string)
    | End(id: string, state: JobState, now: Instant)
    | Release(id: string)
    | Prune(id: string)

  predicate At(s: System, id: string, stage: Stage) { id in s.stage && s.stage[id] == stage }

  predicate Enabled(s: System, e: Event) {
    match e
    case Start(id, _) => s.reg.active == "" && id != "" && id !in s.stage
    case Begin(id, _) => At(s, id, Fresh)
    case Print(id, text) => At(s, id, Working) && text != ""
    case End(id, state, _) => At(s, id, Working) && Terminal(state)
    case Release(id) => At(s, id, Ended)
    case Prune(id) => At(s, id, Released)
  }

  function SetJob(r: Registry, id: string, job: Job): Registry { r.(jobs := r.jobs[id := job]) }

  predicate Consistent(s: System) {
    && (s.reg.active != "" ==> s.reg.active in s.reg.jobs)
    && s.reg.jobs.Keys <= s.stage.Keys && "" !in s.stage
    && forall id :: id in s.stage ==> StageFits(s, id)
  }

  predicate StageFits(s: System, id: string)
    requires id in s.stage
  {
    match s.stage[id]
    case Fresh => id in s.reg.jobs && s.reg.jobs[id].state == Queued && s.reg.active == id
    case Working => id in s.reg.jobs && s.reg.jobs[id].state == Running && s.reg.active == id
    case Ended => id in s.reg.jobs && Terminal(s.reg.jobs[id].state) && s.reg.active == id
    case Released => (id in s.reg.jobs ==> Terminal(s.reg.jobs[id].state)) && s.reg.active != id
    case Over => (id in s.reg.jobs ==> Terminal(s.reg.jobs[id].state)) && s.reg.active != id
  }

  // An event that cannot happen leaves the system as it is.
  ghost function Step(s: System, e: Event): System
    requires Consistent(s)
  {
    if !Enabled(s, e) then s
    else match e
      case Start(id, now) =>
        System(Registry(id, s.reg.jobs[id := Job(Queued, now, 0, [])]), s.stage[id := Fresh], s.out[id := []])
      case Begin(id, now) =>
        s.(reg := SetJob(s.reg, id, WithState(s.reg.jobs[id], Running, now)), stage := s.stage[id := Working])
      case Print(id, text) =>
        var job := s.reg.jobs[id];
        s.(reg := SetJob(s.reg, id, job.(lines := LastLines(job.lines + [Clipped(text)]))),
           out := s.out[id := (if id in s.out then s.out[id] else []) + [Clipped(text)]])
      case End(id, state, now) =>
        s.(reg := SetJob(s.reg, id, WithState(s.reg.jobs[id], state, now)), stage := s.stage[id := Ended])
      case Release(id) =>
        s.(reg := s.reg.(active := if s.reg.active == id then "" else s.reg.active), stage := s.stage[id := Released])
      case Prune(id) =>
        s.(reg := Pruned(s.reg), stage := s.stage[id := Over])
  }

  lemma PruneIsConsistent(s: System, id: string)
    requires Consistent(s) && Enabled(s, Prune(id))
    ensures Consistent(Step(s, Prune(id)))
  {
    var t := Step(s, Prune(id));
    forall other | other in t.stage ensures StageFits(t, other) {
      assert StageFits(s, other);
      if other in s.reg.jobs { PruneKeepsNewest(s.reg, other); }
    }
    if s.reg.active != "" { PruneKeepsNewest(s.reg, s.reg.active); }
  }

  lemma StepIsConsistent(s: System, e: Event)
    requires Consistent(s)
    ensures Consistent(Step(s, e))
  {
    if e.Prune? && Enabled(s, e) {
      PruneIsConsistent(s, e.id);
    } else {
      var t := Step(s, e);
      forall id | id in t.stage ensures StageFits(t, id) { assert id in s.stage ==> StageFits(s, id); }
    }
  }

  ghost function Run(events: seq<Event>): (s: System)
    ensures Consistent(s)
  {
    if events == [] then System(Registry("", map[]), map[], map[])
    else
      var before := Run(events[..|events| - 1]);
      StepIsConsistent(before, events[|events| - 1]);
      Step(before, events[|events| - 1])
  }

  // A non-empty active id names a job in the map; an unfinished job is the
  // active one; at most one goroutine is before its release.
  lemma ActiveIsTheOne(events: seq<Event>, id: string)
    ensures var r := Run(events).reg;
      && (r.active != "" ==> r.active in r.jobs)
      && (id in r.jobs && !Terminal(r.jobs[id].state) ==> r.active == id)
      && (id in Run(events).stage && Run(events).stage[id] in {Fresh, Working, Ended} ==> r.active == id)
  {
    var s := Run(events);
    if id in s.stage { assert StageFits(s, id); }
  }

  // A finished job is never changed again, only dropped.
  lemma FinishedIsFinal(events: seq<Event>, e: Event, id: string)
    requires var r := Run(events).reg; id in r.jobs && Terminal(r.jobs[id].state)
    ensures var r, next := Run(events).reg, Run(events + [e]).reg; id in next.jobs ==> next.jobs[id] == r.jobs[id]
  {
    var s := Run(events);
    assert (events + [e])[..|events + [e]| - 1] == events;
    assert StageFits(s, id);
    if e.Prune? { PruneKeepsNewest(s.reg, id); }
  }

  function Waiting(s: System): set<string> { set id | id in s.stage && s.stage[id] == Released }

  // Finished jobs beside the active one: 64, and one more for each goroutine
  // that has still to prune.
  ghost predicate Bounded(s: System) { |PrunableIds(s.reg)| <= RETENTION + |Waiting(s)| }

  // Steps of the active job touch neither the prunable nor the waiting ones.
  lemma ActiveStepStaysBounded(s: System, e: Event)
    requires Consistent(s) && Bounded(s) && Enabled(s, e) && (e.Begin? || e.Print? || e.End?)
    ensures Bounded(Step(s, e))
  {
    var t := Step(s, e);
    assert StageFits(s, e.id);
    assert PrunableIds(t.reg) == PrunableIds(s.reg) && Waiting(t) == Waiting(s);
  }

  lemma StartStaysBounded(s: System, id: string, now: Instant)
    requires Consistent(s) && Bounded(s) && Enabled(s, Start(id, now))
    ensures Bounded(Step(s, Start(id, now)))
  {
    var t := Step(s, Start(id, now));
    assert id !in s.reg.jobs;
    assert PrunableIds(t.reg) == PrunableIds(s.reg) && Waiting(t) == Waiting(s);
  }

  lemma ReleaseStaysBounded(s: System, id: string)
    requires Consistent(s) && Bounded(s) && Enabled(s, Release(id))
    ensures Bounded(Step(s, Release(id)))
  {
    var t := Step(s, Release(id));
    assert StageFits(s, id);
    assert PrunableIds(t.reg) <= PrunableIds(s.reg) + {id};
    SubsetSize(PrunableIds(t.reg), PrunableIds(s.reg) + {id});
    assert Waiting(t) == Waiting(s) + {id} && id !in Waiting(s);
  }

  lemma StepStaysBounded(s: System, e: Event)
    requires Consistent(s) && Bounded(s) && Enabled(s, e)
    ensures Bounded(Step(s, e))
  {
    match e
    case Start(id, now) => StartStaysBounded(s, id, now);
    case Begin(_, _) => ActiveStepStaysBounded(s, e);
    case Print(_, _) => ActiveStepStaysBounded(s, e);
    case End(_, _, _) => ActiveStepStaysBounded(s, e);
    case Release(id) => ReleaseStaysBounded(s, id);
    case Prune(_) => PrunedSize(s.reg);
  }

  // When every goroutine is through, at most 64 finished jobs are left beside
  // the active one.
  lemma {:induction false} RetentionHolds(events: seq<Event>)
    ensures Bounded(Run(events))
    ensures Waiting(Run(events)) == {} ==> |PrunableIds(Run(events).reg)| <= RETENTION
  {
    if events == [] {
      assert PrunableIds(Run(events).reg) == {};
    } else {
      var before, e := Run(events[..|events| - 1]), events[|events| - 1];
      RetentionHolds(events[..|events| - 1]);
      if Enabled(before, e) { StepStaysBounded(before, e); }
    }
  }

  // ---- the lines -----------------------------------------------------------

  lemma LastLinesNext(all: seq<string>, line: string)
    ensures LastLines(LastLines(all) + [line]) == LastLines(all + [line])
  {}

  // A job shows the last 320 of all its lines.
  lemma {:induction false} JobShowsLastLines(events: seq<Event>, id: string)
    ensures var s := Run(events); id in s.reg.jobs ==> id in s.out && s.reg.jobs[id].lines == LastLines(s.out[id])
  {
    if events != [] {
      var s, e := Run(events[..|events| - 1]), events[|events| - 1];
      JobShowsLastLines(events[..|events| - 1], id);
      if e.Print? && e.id == id && Enabled(s, e) {
        assert StageFits(s, id);
        LastLinesNext(s.out[id], Clipped(e.text));
      }
      if e.Prune? && id in s.reg.jobs { PruneKeepsNewest(s.reg, id); }
    }
  }
}
