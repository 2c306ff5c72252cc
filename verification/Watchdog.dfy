// The watchdog start limiter: at most three starts of a service in an hour, at
// least five minutes apart.

module Watchdog {
  // Nanoseconds.
  type Instant = int

  const MINUTE: Instant := 60_000_000_000
  const COOLDOWN: Instant := 5 * MINUTE
  const WINDOW: Instant := 60 * MINUTE
  const MAX_ATTEMPTS: nat := 3

  // The attempts not before the cutoff.
  function Since(attempts: seq<Instant>, cutoff: Instant): seq<Instant> {
    if attempts == [] then []
    else
      var init, last := attempts[..|attempts| - 1], attempts[|attempts| - 1];
      Since(init, cutoff) + if last >= cutoff then [last] else []
  }

  lemma SinceNext(a: seq<Instant>, x: Instant, cutoff: Instant)
    ensures Since(a + [x], cutoff) == Since(a, cutoff) + if x >= cutoff then [x] else []
  {
    assert (a + [x])[..|a + [x]| - 1] == a;
  }

  // Where the attempts not before the cutoff stand.
  function Recent(attempts: seq<Instant>, cutoff: Instant): set<nat> { set i: nat | i < |attempts| && attempts[i] >= cutoff }

  lemma {:induction false} SinceCounts(attempts: seq<Instant>, cutoff: Instant)
    ensures |Since(attempts, cutoff)| == |Recent(attempts, cutoff)|
  {
    if attempts == [] {
      assert Recent(attempts, cutoff) == {};
    } else {
      var n := |attempts| - 1;
      var init := attempts[..n];
      SinceCounts(init, cutoff);
      assert Recent(attempts, cutoff) == Recent(init, cutoff) + if attempts[n] >= cutoff then {n} else {};
    }
  }

  lemma {:induction false} SinceKeeps(attempts: seq<Instant>, cutoff: Instant, x: Instant)
    ensures multiset(Since(attempts, cutoff))[x] == if x >= cutoff then multiset(attempts)[x] else 0
  {
    if attempts != [] {
      var init, last := attempts[..|attempts| - 1], attempts[|attempts| - 1];
      SinceKeeps(init, cutoff, x);
      assert attempts == init + [last];
    }
  }

  datatype State = State(enabled: map<string, bool>, attempts: map<string, seq<Instant>>, last: map<string, Instant>)

  function AttemptsOf(s: State, id: string): seq<Instant> { if id in s.attempts then s.attempts[id] else [] }

  function Enabled(s: State, id: string): bool { id in s.enabled && s.enabled[id] }

  function Pruned(s: State, now: Instant): State {
    s.(attempts := map id | id in s.attempts :: Since(s.attempts[id], now - WINDOW))
  }

  // After pruning.
  predicate Allowed(s: State, id: string, now: Instant) {
    Enabled(s, id) && |AttemptsOf(s, id)| < MAX_ATTEMPTS && (id in s.last ==> now - s.last[id] >= COOLDOWN)
  }

  function Reserved(s: State, id: string, now: Instant): State {
    s.(attempts := s.attempts[id := AttemptsOf(s, id) + [now]], last := s.last[id := now])
  }

  // The inner loop of pruneAttemptsLocked.
  method Keep(all: seq<Instant>, cutoff: Instant) returns (keep: seq<Instant>)
    ensures keep == Since(all, cutoff)
  {
    keep := [];
    for i := 0 to |all|
      invariant keep == Since(all[..i], cutoff)
    {
      assert all[..i + 1] == all[..i] + [all[i]];
      SinceNext(all[..i], all[i], cutoff);
      if all[i] >= cutoff { keep := keep + [all[i]]; }
    }
    assert all[..|all|] == all;
  }

  class Runtime {
    var enabled: map<string, bool>
    var attempts: map<string, seq<Instant>>
    var lastAttempt: map<string, Instant>

    function View(): State
      reads this
    {
      State(enabled, attempts, lastAttempt)
    }

    constructor ()
      ensures View() == State(map[], map[], map[])
    {
      enabled, attempts, lastAttempt := map[], map[], map[];
    }

    method PruneAttempts(now: Instant)
      modifies this`attempts
      ensures View() == Pruned(old(View()), now)
      // As often as before when less than an hour ago, and otherwise not at all.
      ensures attempts.Keys == old(attempts).Keys
      ensures forall id, x :: id in attempts ==>
                multiset(attempts[id])[x] == if x >= now - 3_600_000_000_000 then multiset(old(attempts)[id])[x] else 0
    {
      var cutoff := now - WINDOW;
      var todo := attempts.Keys;
      while todo != {}
        invariant attempts.Keys == old(attempts).Keys && todo <= attempts.Keys
        invariant forall id :: id in todo ==> attempts[id] == old(attempts)[id]
        invariant forall id :: id in attempts && id !in todo ==> attempts[id] == Since(old(attempts)[id], cutoff)
        decreases todo
      {
        var id :| id in todo;
        todo := todo - {id};
        var keep := Keep(attempts[id], cutoff);
        attempts := attempts[id := keep];
      }
      forall id, x | id in attempts
        ensures multiset(attempts[id])[x] == if x >= now - 3_600_000_000_000 then multiset(old(attempts)[id])[x] else 0
      {
        SinceKeeps(old(attempts)[id], cutoff, x);
      }
    }

    method ReserveAttempt(id: string, now: Instant) returns (ok: bool)
      modifies this
      // Switched on, fewer than three attempts in the last hour, and the last one
      // at least five minutes ago.
      ensures ok <==>
        && id in enabled && enabled[id]
        && (id in old(attempts) ==> |Recent(old(attempts)[id], now - 3_600_000_000_000)| < 3)
        && (id in old(lastAttempt) ==> now - old(lastAttempt)[id] >= 300_000_000_000)
      ensures enabled == old(enabled)
      ensures lastAttempt == if ok then old(lastAttempt)[id := now] else old(lastAttempt)
      ensures ok <==> Allowed(Pruned(old(View()), now), id, now)
      ensures View() == var p := Pruned(old(View()), now); if ok then Reserved(p, id, now) else p
    {
      if id in attempts { SinceCounts(attempts[id], now - WINDOW); }
      PruneAttempts(now);
      if id !in enabled || !enabled[id] { return false; }
      var mine := if id in attempts then attempts[id] else [];
      if |mine| >= MAX_ATTEMPTS { return false; }
      if id in lastAttempt && now - lastAttempt[id] < COOLDOWN { return false; }
      attempts := attempts[id := mine + [now]];
      lastAttempt := lastAttempt[id := now];
      ok := true;
    }

    // statuses prunes before it reports.
    method AttemptsLastHour(id: string, now: Instant) returns (n: nat)
      modifies this`attempts
      ensures View() == Pruned(old(View()), now)
      ensures n == |AttemptsOf(View(), id)|
    {
      PruneAttempts(now);
      n := if id in attempts then |attempts[id]| else 0;
    }

    // saved: the configuration file was written.
    method Configure(id: string, on: bool, saved: bool)
      modifies this`enabled
      ensures View() == if saved then old(View()).(enabled := old(enabled)[id := on]) else old(View())
    {
      if saved { enabled := enabled[id := on]; }
    }
  }

  // ---- every run -----------------------------------------------------------

  datatype Event = Reserve(id: string, now: Instant) | Status(now: Instant) | Configure(id: string, on: bool, saved: bool)

  // log: the granted starts. latest: the latest instant that pruned.
  datatype System = System(state: State, log: seq<(string, Instant)>, latest: map<(), Instant>)

  const INIT := System(State(map[], map[], map[]), [], map[])

  function Later(latest: map<(), Instant>, now: Instant): map<(), Instant> {
    if () in latest && latest[()] >= now then latest else map[() := now]
  }

  function Step(s: System, e: Event): System {
    match e
    case Reserve(id, now) =>
      var p := Pruned(s.state, now);
      if Allowed(p, id, now) then System(Reserved(p, id, now), s.log + [(id, now)], Later(s.latest, now))
      else System(p, s.log, Later(s.latest, now))
    case Status(now) => System(Pruned(s.state, now), s.log, Later(s.latest, now))
    case Configure(id, on, saved) =>
      if saved then s.(state := s.state.(enabled := s.state.enabled[id := on])) else s
  }

  function Run(events: seq<Event>): System {
    if events == [] then INIT else Step(Run(events[..|events| - 1]), events[|events| - 1])
  }

  // The granted starts of one service.
  function Granted(log: seq<(string, Instant)>, id: string): seq<Instant> {
    if log == [] then []
    else
      var init, last := log[..|log| - 1], log[|log| - 1];
      Granted(init, id) + if last.0 == id then [last.1] else []
  }

  function CountIn(a: seq<Instant>, from: Instant, to: Instant): nat {
    if a == [] then 0
    else CountIn(a[..|a| - 1], from, to) + if from <= a[|a| - 1] <= to then 1 else 0
  }

  lemma CountNext(a: seq<Instant>, x: Instant, from: Instant, to: Instant)
    ensures CountIn(a + [x], from, to) == CountIn(a, from, to) + if from <= x <= to then 1 else 0
  {
    assert (a + [x])[..|a + [x]| - 1] == a;
  }

  // ---- switched off --------------------------------------------------------

  // What the last saved configuration of the service said; services start off.
  function SwitchedOn(events: seq<Event>, id: string): bool {
    if events == [] then false
    else
      match events[|events| - 1]
      case Configure(other, on, saved) => if saved && other == id then on else SwitchedOn(events[..|events| - 1], id)
      case Reserve(_, _) => SwitchedOn(events[..|events| - 1], id)
      case Status(_) => SwitchedOn(events[..|events| - 1], id)
  }

  lemma {:induction false} EnabledIsSwitchedOn(events: seq<Event>, id: string)
    ensures Enabled(Run(events).state, id) <==> SwitchedOn(events, id)
  {
    if events != [] { EnabledIsSwitchedOn(events[..|events| - 1], id); }
  }

  // The k-th event asked for this start, when the service was on.
  ghost predicate AskedWhileOn(events: seq<Event>, start: (string, Instant), k: int) {
    0 <= k < |events| && events[k] == Reserve(start.0, start.1) && SwitchedOn(events[..k], start.0)
  }

  lemma AskedLater(events: seq<Event>, e: Event, start: (string, Instant), k: int)
    requires AskedWhileOn(events, start, k)
    ensures AskedWhileOn(events + [e], start, k)
  {
    assert (events + [e])[..k] == events[..k];
  }

  lemma LogStays(s: System, e: Event, n: nat)
    requires n < |s.log|
    ensures n < |Step(s, e).log| && Step(s, e).log[n] == s.log[n]
  {}

  // No service is ever started while it is switched off: each start in the log
  // was asked for when the last saved configuration had it on.
  lemma {:induction false} StartsWhileOn(events: seq<Event>, n: nat)
    requires n < |Run(events).log|
    ensures exists k :: AskedWhileOn(events, Run(events).log[n], k)
  {
    var init, e := events[..|events| - 1], events[|events| - 1];
    assert events == init + [e];
    if n < |Run(init).log| {
      StartsWhileOn(init, n);
      LogStays(Run(init), e, n);
      var k :| AskedWhileOn(init, Run(init).log[n], k);
      AskedLater(init, e, Run(init).log[n], k);
      assert AskedWhileOn(events, Run(events).log[n], k);
    } else {
      EnabledIsSwitchedOn(init, e.id);
      assert events[..|init|] == init;
      assert AskedWhileOn(events, Run(events).log[n], |init|);
    }
  }

  // ---- spacing -------------------------------------------------------------

  ghost predicate Spaced(a: seq<Instant>) {
    forall i :: 0 < i < |a| ==> a[i] - a[i - 1] >= COOLDOWN
  }

  // The last grant is recorded, and grants are a cooldown apart.
  ghost predicate SpacedFor(s: System, id: string) {
    var g := Granted(s.log, id);
    && (id in s.state.last <==> g != []) && (id in s.state.last ==> g[|g| - 1] == s.state.last[id])
    && Spaced(g)
  }

  lemma GrantedNext(log: seq<(string, Instant)>, id: string, other: string, now: Instant)
    ensures Granted(log + [(id, now)], other) == if other == id then Granted(log, id) + [now] else Granted(log, other)
  {
    assert (log + [(id, now)])[..|log + [(id, now)]| - 1] == log;
  }

  lemma GrantKeepsSpacing(s: System, id: string, now: Instant, other: string)
    requires SpacedFor(s, other) && (id in s.state.last ==> now - s.state.last[id] >= COOLDOWN)
    ensures SpacedFor(System(Reserved(s.state, id, now), s.log + [(id, now)], s.latest), other)
  {
    GrantedNext(s.log, id, other, now);
  }

  // Starts of one service are five minutes apart, whatever the instants.
  lemma {:induction false} StartsAreSpaced(events: seq<Event>, id: string)
    ensures SpacedFor(Run(events), id)
    ensures Spaced(Granted(Run(events).log, id))
  {
    if events != [] {
      var before, e := Run(events[..|events| - 1]), events[|events| - 1];
      StartsAreSpaced(events[..|events| - 1], id);
      if e.Reserve? && Allowed(Pruned(before.state, e.now), e.id, e.now) {
        GrantKeepsSpacing(System(Pruned(before.state, e.now), before.log, Later(before.latest, e.now)), e.id, e.now, id);
      }
    }
  }

  // ---- three in an hour ----------------------------------------------------

  predicate Prunes(e: Event) { e.Reserve? || e.Status? }

  // No reservation is made at an instant before an earlier reservation or
  // status call. Nondecreasing instants are enough.
  ghost predicate Ordered(events: seq<Event>) {
    forall i, j :: 0 <= i < j < |events| && Prunes(events[i]) && events[j].Reserve? ==> events[i].now <= events[j].now
  }

  lemma {:induction false} SinceTwice(a: seq<Instant>, c: Instant, d: Instant)
    ensures Since(Since(a, c), d) == Since(a, if c >= d then c else d)
  {
    if a != [] {
      SinceTwice(a[..|a| - 1], c, d);
      var s := Since(a[..|a| - 1], c);
      SinceNext(s, a[|a| - 1], d);
      assert s + [] == s;
    }
  }

  lemma {:induction false} CountBound(a: seq<Instant>, from: Instant, to: Instant, cutoff: Instant)
    requires cutoff <= from
    ensures CountIn(a, from, to) <= |Since(a, cutoff)|
  {
    if a != [] { CountBound(a[..|a| - 1], from, to, cutoff); }
  }

  lemma {:induction false} LatestIsSeen(events: seq<Event>)
    ensures var latest := Run(events).latest;
      () in latest ==> exists i :: 0 <= i < |events| && Prunes(events[i]) && events[i].now == latest[()]
  {
    if events != [] {
      var init := events[..|events| - 1];
      LatestIsSeen(init);
      var latest := Run(init).latest;
      if () in latest {
        var i :| 0 <= i < |init| && Prunes(init[i]) && init[i].now == latest[()];
        assert events[i] == init[i];
      }
      var k := |events| - 1;
      assert Prunes(events[k]) ==> events[k].now == events[k].now;
    }
  }

  // The table holds the granted starts that no prune so far has cut off.
  ghost predicate TableFor(s: System, id: string) {
    if () in s.latest then AttemptsOf(s.state, id) == Since(Granted(s.log, id), s.latest[()] - WINDOW)
    else AttemptsOf(s.state, id) == [] == Granted(s.log, id)
  }

  ghost predicate TableIs(s: System) { forall id :: TableFor(s, id) }

  ghost predicate ThreeInWindow(log: seq<(string, Instant)>) {
    forall id, from, to :: to <= from + WINDOW ==> CountIn(Granted(log, id), from, to) <= MAX_ATTEMPTS
  }

  lemma PruneKeepsTable(s: System, now: Instant, id: string)
    requires TableFor(s, id)
    ensures TableFor(System(Pruned(s.state, now), s.log, Later(s.latest, now)), id)
  {
    assert AttemptsOf(Pruned(s.state, now), id) == Since(AttemptsOf(s.state, id), now - WINDOW);
    if () in s.latest { SinceTwice(Granted(s.log, id), s.latest[()] - WINDOW, now - WINDOW); }
  }

  lemma GrantKeepsTable(s: System, id: string, now: Instant, other: string)
    requires TableFor(s, other) && () in s.latest && s.latest[()] == now
    ensures TableFor(System(Reserved(s.state, id, now), s.log + [(id, now)], s.latest), other)
  {
    GrantedNext(s.log, id, other, now);
    SinceNext(Granted(s.log, other), now, now - WINDOW);
  }

  lemma GrantKeepsBound(s: System, id: string, now: Instant)
    requires TableFor(s, id) && () in s.latest && s.latest[()] == now
    requires ThreeInWindow(s.log) && |AttemptsOf(s.state, id)| < MAX_ATTEMPTS
    ensures ThreeInWindow(s.log + [(id, now)])
  {
    forall other, from, to | to <= from + WINDOW ensures CountIn(Granted(s.log + [(id, now)], other), from, to) <= MAX_ATTEMPTS {
      GrantedNext(s.log, id, other, now);
      var a := Granted(s.log, other);
      CountNext(a, now, from, to);
      if from <= now <= to { CountBound(a, from, to, now - WINDOW); }
    }
  }

  // In every run with ordered instants no service is started more than three
  // times within any closed hour, whatever the status calls and configuration
  // changes in between.
  lemma {:induction false} ThreeStartsAnHour(events: seq<Event>)
    requires Ordered(events)
    ensures TableIs(Run(events)) && ThreeInWindow(Run(events).log)
  {
    if events != [] {
      var init := events[..|events| - 1];
      var before, e := Run(init), events[|events| - 1];
      ThreeStartsAnHour(init);
      if Prunes(e) {
        var p := System(Pruned(before.state, e.now), before.log, Later(before.latest, e.now));
        forall id ensures TableFor(p, id) {
          assert TableFor(before, id);
          PruneKeepsTable(before, e.now, id);
        }
        if e.Reserve? && Allowed(p.state, e.id, e.now) {
          LatestIsSeen(init);
          assert p.latest[()] == e.now;
          forall id ensures TableFor(Run(events), id) { GrantKeepsTable(p, e.id, e.now, id); }
          GrantKeepsBound(p, e.id, e.now);
        }
      } else {
        forall id ensures TableFor(Run(events), id) { assert TableFor(before, id); }
      }
    }
  }

  lemma RunNext(events: seq<Event>, e: Event)
    ensures Run(events + [e]) == Step(Run(events), e)
  {
    assert (events + [e])[..|events + [e]| - 1] == events;
  }

  // What a granted start does to its own service.
  lemma StartStep(events: seq<Event>, id: string, now: Instant)
    requires var s := Run(events).state;
      && Enabled(s, id) && |Since(AttemptsOf(s, id), now - WINDOW)| < MAX_ATTEMPTS
      && (id in s.last ==> now - s.last[id] >= COOLDOWN)
    ensures var s, t := Run(events), Run(events + [Reserve(id, now)]);
      && Enabled(t.state, id) && id in t.state.last && t.state.last[id] == now
      && AttemptsOf(t.state, id) == Since(AttemptsOf(s.state, id), now - WINDOW) + [now]
      && Granted(t.log, id) == Granted(s.log, id) + [now]
  {
    RunNext(events, Reserve(id, now));
    GrantedNext(Run(events).log, id, id, now);
  }

  lemma StatusStep(events: seq<Event>, id: string, now: Instant)
    ensures var s, t := Run(events), Run(events + [Status(now)]);
      && Enabled(t.state, id) == Enabled(s.state, id) && t.state.last == s.state.last && t.log == s.log
      && AttemptsOf(t.state, id) == Since(AttemptsOf(s.state, id), now - WINDOW)
  {
    RunNext(events, Status(now));
  }

  lemma SinceThree(x: Instant, y: Instant, z: Instant, cutoff: Instant)
    ensures Since([], cutoff) == []
    ensures Since([x], cutoff) == if x >= cutoff then [x] else []
    ensures Since([x, y], cutoff) == (if x >= cutoff then [x] else []) + if y >= cutoff then [y] else []
    ensures Since([x, y, z], cutoff) == (if x >= cutoff then [x] else []) + (if y >= cutoff then [y] else []) + if z >= cutoff then [z] else []
  {
    assert [] + [x] == [x] && [x] + [y] == [x, y] && [x, y] + [z] == [x, y, z];
    SinceNext([], x, cutoff);
    SinceNext([x], y, cutoff);
    SinceNext([x, y], z, cutoff);
  }

  const SVC := "svc"
  const ON: seq<Event> := [Configure(SVC, true, true)]
  const THREE_STARTS: seq<Event> := ON + [Reserve(SVC, 0)] + [Reserve(SVC, COOLDOWN)] + [Reserve(SVC, 2 * COOLDOWN)]
  const EARLY_PRUNE: seq<Event> := THREE_STARTS + [Status(WINDOW + 1)] + [Reserve(SVC, WINDOW)]

  ghost predicate StartedAt(s: System, starts: seq<Instant>, at: Instant) {
    && Enabled(s.state, SVC) && SVC in s.state.last && s.state.last[SVC] == at
    && AttemptsOf(s.state, SVC) == starts == Granted(s.log, SVC)
  }

  lemma OneStart()
    ensures StartedAt(Run(ON + [Reserve(SVC, 0)]), [0], 0)
  {
    assert [] + ON == ON;
    RunNext([], ON[0]);
    SinceThree(0, 0, 0, 0 - WINDOW);
    StartStep(ON, SVC, 0);
  }

  lemma TwoStarts()
    ensures StartedAt(Run(ON + [Reserve(SVC, 0)] + [Reserve(SVC, COOLDOWN)]), [0, COOLDOWN], COOLDOWN)
  {
    OneStart();
    SinceThree(0, 0, 0, COOLDOWN - WINDOW);
    StartStep(ON + [Reserve(SVC, 0)], SVC, COOLDOWN);
  }

  lemma ThreeStarts()
    ensures StartedAt(Run(THREE_STARTS), [0, COOLDOWN, 2 * COOLDOWN], 2 * COOLDOWN)
  {
    TwoStarts();
    SinceThree(0, COOLDOWN, 0, 2 * COOLDOWN - WINDOW);
    StartStep(ON + [Reserve(SVC, 0)] + [Reserve(SVC, COOLDOWN)], SVC, 2 * COOLDOWN);
  }

  lemma EarlyStatus()
    ensures var s := Run(THREE_STARTS + [Status(WINDOW + 1)]);
      && Enabled(s.state, SVC) && SVC in s.state.last && s.state.last[SVC] == 2 * COOLDOWN
      && AttemptsOf(s.state, SVC) == [COOLDOWN, 2 * COOLDOWN]
      && Granted(s.log, SVC) == [0, COOLDOWN, 2 * COOLDOWN]
  {
    ThreeStarts();
    SinceThree(0, COOLDOWN, 2 * COOLDOWN, 1);
    StatusStep(THREE_STARTS, SVC, WINDOW + 1);
  }

  lemma FourStarts()
    ensures Granted(Run(EARLY_PRUNE).log, SVC) == [0, COOLDOWN, 2 * COOLDOWN, WINDOW]
  {
    EarlyStatus();
    SinceThree(COOLDOWN, 2 * COOLDOWN, 0, 0);
    StartStep(THREE_STARTS + [Status(WINDOW + 1)], SVC, WINDOW);
  }

  lemma CountFour(w: Instant, x: Instant, y: Instant, z: Instant, from: Instant, to: Instant)
    requires from <= w <= to && from <= x <= to && from <= y <= to && from <= z <= to
    ensures CountIn([w, x, y, z], from, to) == 4
  {
    assert [] + [w] == [w] && [w] + [x] == [w, x] && [w, x] + [y] == [w, x, y] && [w, x, y] + [z] == [w, x, y, z];
    CountNext([], w, from, to);
    CountNext([w], x, from, to);
    CountNext([w, x], y, from, to);
    CountNext([w, x, y], z, from, to);
  }

  // A status call with a later instant than the tick that is still running
  // forgets an attempt too early: four starts within one closed hour.
  lemma OrderIsNeeded()
    ensures !Ordered(EARLY_PRUNE) && !ThreeInWindow(Run(EARLY_PRUNE).log)
  {
    FourStarts();
    var i, j := |EARLY_PRUNE| - 2, |EARLY_PRUNE| - 1;
    assert Prunes(EARLY_PRUNE[i]) && EARLY_PRUNE[j].Reserve? && EARLY_PRUNE[i].now > EARLY_PRUNE[j].now;
    CountFour(0, COOLDOWN, 2 * COOLDOWN, WINDOW, 0, WINDOW);
  }

  // No reservation is more than d earlier than a reservation or status call
  // before it.
  ghost predicate OrderedWithin(events: seq<Event>, d: int) {
    forall i, j :: 0 <= i < j < |events| && Prunes(events[i]) && events[j].Reserve? ==> events[i].now <= events[j].now + d
  }

  lemma EarlyPruneIsOneLate(d: int)
    requires d > 0
    ensures OrderedWithin(EARLY_PRUNE, d)
  {
    forall i, j | 0 <= i < j < |EARLY_PRUNE| && Prunes(EARLY_PRUNE[i]) && EARLY_PRUNE[j].Reserve?
      ensures EARLY_PRUNE[i].now <= EARLY_PRUNE[j].now + d
    {
      assert |EARLY_PRUNE| == 6 && EARLY_PRUNE[0].Configure?;
      assert EARLY_PRUNE[1].now == 0 && EARLY_PRUNE[2].now == COOLDOWN && EARLY_PRUNE[3].now == 2 * COOLDOWN;
      assert EARLY_PRUNE[4] == Status(WINDOW + 1) && EARLY_PRUNE[5].now == WINDOW;
    }
  }

  // Three starts an hour hold in every run with reservations up to d late if and
  // only if d allows no lateness at all.
  lemma ThreeStartsIffOrdered(d: int)
    ensures (forall events :: OrderedWithin(events, d) ==> ThreeInWindow(Run(events).log)) <==> d <= 0
  {
    if d <= 0 {
      forall events | OrderedWithin(events, d) ensures ThreeInWindow(Run(events).log) { ThreeStartsAnHour(events); }
    } else {
      EarlyPruneIsOneLate(d);
      OrderIsNeeded();
    }
  }
}
