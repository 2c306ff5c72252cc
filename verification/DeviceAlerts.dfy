// The device observer's storage and thermal alerts: an edge-triggered table
// kept in step with the classified levels.

module DeviceAlerts {
  import opened Sequences
  import opened Wrappers

  type Instant = int

  datatype Kind = Storage | Thermal

  // A float64 that may be NaN.
  datatype Reading = Number(value: real) | NotANumber

  datatype Level = Normal | Warning | Critical

  const STORAGE_WARNING: real := 80.0
  const STORAGE_CRITICAL: real := 90.0
  const THERMAL_WARNING: real := 80.0
  const THERMAL_CRITICAL: real := 90.0

  predicate AtLeast(r: Reading, limit: real) { r.Number? && r.value >= limit }

  // NaN is normal.
  function ClassifyStorage(r: Reading): (l: Level)
    ensures l.Normal? <==> r.NotANumber? || r.value < 80.0
    ensures l.Critical? <==> r.Number? && r.value >= 90.0
  {
    if AtLeast(r, STORAGE_CRITICAL) then Critical else if AtLeast(r, STORAGE_WARNING) then Warning else Normal
  }

  function ClassifyThermal(r: Reading): (l: Level)
    ensures l.Normal? <==> r.NotANumber? || r.value < 80.0
    ensures l.Critical? <==> r.Number? && r.value >= 90.0
  {
    if AtLeast(r, THERMAL_CRITICAL) then Critical else if AtLeast(r, THERMAL_WARNING) then Warning else Normal
  }

  function Classify(kind: Kind, r: Reading): Level { if kind.Storage? then ClassifyStorage(r) else ClassifyThermal(r) }

  function Prefix(kind: Kind): string { if kind.Storage? then "storage:" else "thermal:" }

  predicate IdOf(kind: Kind, id: string) { Prefix(kind) <= id }

  lemma PrefixesDiffer(kind: Kind, other: Kind, id: string)
    requires IdOf(kind, id) && IdOf(other, id)
    ensures kind == other
  {
    assert id[0] == Prefix(kind)[0] == Prefix(other)[0];
  }

  // source is the mount point or the sensor.
  datatype Sample = Sample(source: string, reading: Reading)

  datatype Problem = Problem(severity: Level, since: Instant)

  datatype Event = Alert(id: string, level: Level, at: Instant) | Recovery(id: string, at: Instant)

  // One kind's levels with the shared table and the events emitted so far.
  datatype Board = Board(levels: map<string, Level>, active: map<string, Problem>, events: seq<Event>)

  function Sampled(b: Board, id: string, level: Level, now: Instant): Board {
    var known := id in b.levels;
    var levels := b.levels[id := level];
    if level == Normal then
      if known && b.levels[id] != Normal then Board(levels, b.active - {id}, b.events + [Recovery(id, now)])
      else b.(levels := levels)
    else if known && b.levels[id] == level then b.(levels := levels)
    else Board(levels, b.active[id := Problem(level, now)], b.events + [Alert(id, level, now)])
  }

  function AllSampled(b: Board, kind: Kind, samples: seq<Sample>, now: Instant): Board {
    if samples == [] then b
    else
      var s := samples[|samples| - 1];
      Sampled(AllSampled(b, kind, samples[..|samples| - 1], now), Prefix(kind) + s.source, Classify(kind, s.reading), now)
  }

  function Seen(kind: Kind, samples: seq<Sample>): set<string> { set i | 0 <= i < |samples| :: Prefix(kind) + samples[i].source }

  // Objects that are gone take their alert with them.
  function Swept(b: Board, seen: set<string>): Board {
    b.(levels := map id | id in b.levels && id in seen :: b.levels[id], active := b.active - (b.levels.Keys - seen))
  }

  function Observed(b: Board, kind: Kind, samples: seq<Sample>, now: Instant): Board {
    Swept(AllSampled(b, kind, samples, now), Seen(kind, samples))
  }

  datatype Observation = Observation(kind: Kind, samples: seq<Sample>, now: Instant)

  datatype State = State(storage: map<string, Level>, thermal: map<string, Level>, active: map<string, Problem>, events: seq<Event>)

  function BoardOf(s: State, kind: Kind): Board { Board(if kind.Storage? then s.storage else s.thermal, s.active, s.events) }

  function Step(s: State, o: Observation): State {
    var b := Observed(BoardOf(s, o.kind), o.kind, o.samples, o.now);
    if o.kind.Storage? then State(b.levels, s.thermal, b.active, b.events) else State(s.storage, b.levels, b.active, b.events)
  }

  // What the observers do with the shared table. The network and the watchdog
  // observer set or clear an entry of their own and may emit an event about it.
  datatype Happening =
    | Observing(o: Observation)
    | Other(id: string, problem: Option<Problem>, events: seq<Event>)

  predicate IsOthers(id: string) { !IdOf(Storage, id) && !IdOf(Thermal, id) }

  // They only touch ids of their own prefixes.
  predicate OthersOwn(h: Happening) { h.Other? ==> IsOthers(h.id) && forall i :: 0 <= i < |h.events| ==> h.events[i].id == h.id }

  function Happen(s: State, h: Happening): State {
    match h
    case Observing(o) => Step(s, o)
    case Other(id, problem, events) =>
      s.(active := if problem.Some? then s.active[id := problem.value] else s.active - {id}, events := s.events + events)
  }

  // ---- the program ---------------------------------------------------------

  class Observer {
    var storage: map<string, Level>
    var thermal: map<string, Level>
    var active: map<string, Problem>
    var events: seq<Event>

    function View(): State
      reads this
    {
      State(storage, thermal, active, events)
    }

    constructor ()
      ensures View() == State(map[], map[], map[], [])
    {
      storage, thermal, active, events := map[], map[], map[], [];
    }

    method ObserveStorage(now: Instant, samples: seq<Sample>)
      modifies this
      ensures View() == Step(old(View()), Observation(Storage, samples, now))
      ensures thermal == old(thermal)
      ensures storage.Keys == set i | 0 <= i < |samples| :: "storage:" + samples[i].source
      // The last reading of each source decides its level.
      ensures forall i :: 0 <= i < |samples| && (forall j :: i < j < |samples| ==> samples[j].source != samples[i].source) ==>
        var id, r := "storage:" + samples[i].source, samples[i].reading;
        id in storage && storage[id] == if r.NotANumber? || r.value < 80.0 then Normal else if r.value < 90.0 then Warning else Critical
      // Alerts of other objects stay.
      ensures (forall id :: id in old(storage) ==> "storage:" <= id) ==>
        forall id :: !("storage:" <= id) ==> (id in active <==> id in old(active)) && (id in active ==> active[id] == old(active)[id])
    {
      ghost var b := Board(storage, active, events);
      storage := Observe(Storage, storage, now, samples);
      StorageInFields(b, Board(storage, active, events), samples, now);
    }

    method ObserveThermal(now: Instant, samples: seq<Sample>)
      modifies this
      ensures View() == Step(old(View()), Observation(Thermal, samples, now))
      ensures storage == old(storage)
      ensures thermal.Keys == set i | 0 <= i < |samples| :: "thermal:" + samples[i].source
      // The last reading of each source decides its level.
      ensures forall i :: 0 <= i < |samples| && (forall j :: i < j < |samples| ==> samples[j].source != samples[i].source) ==>
        var id, r := "thermal:" + samples[i].source, samples[i].reading;
        id in thermal && thermal[id] == if r.NotANumber? || r.value < 80.0 then Normal else if r.value < 90.0 then Warning else Critical
      // Alerts of other objects stay.
      ensures (forall id :: id in old(thermal) ==> "thermal:" <= id) ==>
        forall id :: !("thermal:" <= id) ==> (id in active <==> id in old(active)) && (id in active ==> active[id] == old(active)[id])
    {
      ghost var b := Board(thermal, active, events);
      thermal := Observe(Thermal, thermal, now, samples);
      ThermalInFields(b, Board(thermal, active, events), samples, now);
    }

    method Observe(kind: Kind, before: map<string, Level>, now: Instant, samples: seq<Sample>) returns (levels: map<string, Level>)
      modifies this`active, this`events
      ensures Board(levels, active, events) == Observed(Board(before, old(active), old(events)), kind, samples, now)
    {
      ghost var b := Board(before, active, events);
      levels := before;
      var seen: set<string> := {};
      for i := 0 to |samples|
        invariant seen == Seen(kind, samples[..i])
        invariant Board(levels, active, events) == AllSampled(b, kind, samples[..i], now)
      {
        assert samples[..i + 1][..i] == samples[..i];
        SeenNext(kind, samples[..i], samples[i]);
        assert samples[..i + 1] == samples[..i] + [samples[i]];
        var id := Prefix(kind) + samples[i].source;
        seen := seen + {id};
        var level := Classify(kind, samples[i].reading);
        var known := id in levels;
        var previous := if known then levels[id] else Normal;
        levels := levels[id := level];
        if level == Normal {
          if known && previous != Normal {
            active := active - {id};
            events := events + [Recovery(id, now)];
          }
        } else if !(known && previous == level) {
          active := active[id := Problem(level, now)];
          events := events + [Alert(id, level, now)];
        }
      }
      assert samples[..|samples|] == samples;
      levels := Sweep(levels, seen);
    }

    method Sweep(before: map<string, Level>, seen: set<string>) returns (levels: map<string, Level>)
      modifies this`active
      ensures Board(levels, active, events) == Swept(Board(before, old(active), events), seen)
    {
      levels := before;
      var todo := before.Keys;
      while todo != {}
        invariant todo <= before.Keys
        invariant forall id :: id in levels <==> id in before && (id in todo || id in seen)
        invariant forall id :: id in levels ==> levels[id] == before[id]
        invariant active == old(active) - (before.Keys - todo - seen)
        decreases todo
      {
        var id :| id in todo;
        ghost var gone := before.Keys - todo - seen;
        todo := todo - {id};
        if id in seen {
          assert before.Keys - todo - seen == gone;
        } else {
          assert before.Keys - todo - seen == gone + {id};
          levels := levels - {id};
          active := active - {id};
        }
      }
    }
  }

  lemma SourceOf(kind: Kind, a: string, b: string)
    requires Prefix(kind) + a == Prefix(kind) + b
    ensures a == b
  {
    var n := |Prefix(kind)|;
    assert (Prefix(kind) + a)[n..] == a && (Prefix(kind) + b)[n..] == b;
  }

  // The i-th sample is the last of its source.
  predicate IsLast(samples: seq<Sample>, i: nat)
    requires i < |samples|
  {
    forall j :: i < j < |samples| ==> samples[j].source != samples[i].source
  }

  lemma SampledKeys(b: Board, id: string, level: Level, now: Instant)
    ensures Sampled(b, id, level, now).levels == b.levels[id := level]
    ensures Sampled(b, id, level, now).levels.Keys == b.levels.Keys + {id}
  {}

  lemma {:induction false} LevelsSeen(b: Board, kind: Kind, samples: seq<Sample>, now: Instant)
    ensures AllSampled(b, kind, samples, now).levels.Keys == b.levels.Keys + Seen(kind, samples)
  {
    if samples != [] {
      var init, s := samples[..|samples| - 1], samples[|samples| - 1];
      assert samples == init + [s];
      LevelsSeen(b, kind, init, now);
      SeenNext(kind, init, s);
      SampledKeys(AllSampled(b, kind, init, now), Prefix(kind) + s.source, Classify(kind, s.reading), now);
    }
  }

  lemma {:induction false} LevelOfLast(b: Board, kind: Kind, samples: seq<Sample>, now: Instant, i: nat)
    requires i < |samples| && IsLast(samples, i)
    ensures var n, id := AllSampled(b, kind, samples, now).levels, Prefix(kind) + samples[i].source;
      id in n && n[id] == Classify(kind, samples[i].reading)
  {
    var last := |samples| - 1;
    if i < last {
      var init := samples[..last];
      assert samples[last].source != samples[i].source;
      if Prefix(kind) + samples[last].source == Prefix(kind) + samples[i].source { SourceOf(kind, samples[last].source, samples[i].source); }
      assert IsLast(init, i) by { assert forall j :: i < j < last ==> init[j] == samples[j]; }
      LevelOfLast(b, kind, init, now, i);
    }
  }

  lemma ObservedLevel(b: Board, kind: Kind, samples: seq<Sample>, now: Instant, i: nat)
    requires i < |samples| && IsLast(samples, i)
    ensures var n, id := Observed(b, kind, samples, now).levels, Prefix(kind) + samples[i].source;
      id in n && n[id] == Classify(kind, samples[i].reading)
  {
    LevelOfLast(b, kind, samples, now, i);
    assert Prefix(kind) + samples[i].source in Seen(kind, samples);
  }

  lemma ObservedKeys(b: Board, kind: Kind, samples: seq<Sample>, now: Instant)
    ensures Observed(b, kind, samples, now).levels.Keys == Seen(kind, samples)
  {
    LevelsSeen(b, kind, samples, now);
  }

  lemma StorageInFields(b: Board, n: Board, samples: seq<Sample>, now: Instant)
    requires n == Observed(b, Storage, samples, now)
    ensures n.levels.Keys == set i | 0 <= i < |samples| :: "storage:" + samples[i].source
    ensures forall i :: 0 <= i < |samples| && (forall j :: i < j < |samples| ==> samples[j].source != samples[i].source) ==>
      var id, r := "storage:" + samples[i].source, samples[i].reading;
      id in n.levels && n.levels[id] == if r.NotANumber? || r.value < 80.0 then Normal else if r.value < 90.0 then Warning else Critical
    ensures (forall id :: id in b.levels ==> "storage:" <= id) ==>
      forall id :: !("storage:" <= id) ==> (id in n.active <==> id in b.active) && (id in n.active ==> n.active[id] == b.active[id])
  {
    ObservedKeys(b, Storage, samples, now);
    forall i | 0 <= i < |samples| && (forall j :: i < j < |samples| ==> samples[j].source != samples[i].source)
      ensures var id, r := "storage:" + samples[i].source, samples[i].reading;
        id in n.levels && n.levels[id] == if r.NotANumber? || r.value < 80.0 then Normal else if r.value < 90.0 then Warning else Critical
    {
      ObservedLevel(b, Storage, samples, now, i);
    }
    if forall id :: id in b.levels ==> "storage:" <= id {
      forall id | !("storage:" <= id)
        ensures (id in n.active <==> id in b.active) && (id in n.active ==> n.active[id] == b.active[id])
      {
        ObserveElsewhere(b, Storage, samples, now, id);
      }
    }
  }

  lemma ThermalInFields(b: Board, n: Board, samples: seq<Sample>, now: Instant)
    requires n == Observed(b, Thermal, samples, now)
    ensures n.levels.Keys == set i | 0 <= i < |samples| :: "thermal:" + samples[i].source
    ensures forall i :: 0 <= i < |samples| && (forall j :: i < j < |samples| ==> samples[j].source != samples[i].source) ==>
      var id, r := "thermal:" + samples[i].source, samples[i].reading;
      id in n.levels && n.levels[id] == if r.NotANumber? || r.value < 80.0 then Normal else if r.value < 90.0 then Warning else Critical
    ensures (forall id :: id in b.levels ==> "thermal:" <= id) ==>
      forall id :: !("thermal:" <= id) ==> (id in n.active <==> id in b.active) && (id in n.active ==> n.active[id] == b.active[id])
  {
    ObservedKeys(b, Thermal, samples, now);
    forall i | 0 <= i < |samples| && (forall j :: i < j < |samples| ==> samples[j].source != samples[i].source)
      ensures var id, r := "thermal:" + samples[i].source, samples[i].reading;
        id in n.levels && n.levels[id] == if r.NotANumber? || r.value < 80.0 then Normal else if r.value < 90.0 then Warning else Critical
    {
      ObservedLevel(b, Thermal, samples, now, i);
    }
    if forall id :: id in b.levels ==> "thermal:" <= id {
      forall id | !("thermal:" <= id)
        ensures (id in n.active <==> id in b.active) && (id in n.active ==> n.active[id] == b.active[id])
      {
        ObserveElsewhere(b, Thermal, samples, now, id);
      }
    }
  }

  lemma SeenNext(kind: Kind, samples: seq<Sample>, s: Sample)
    ensures Seen(kind, samples + [s]) == Seen(kind, samples) + {Prefix(kind) + s.source}
  {
    var all := samples + [s];
    assert all[|samples|] == s;
    forall i | 0 <= i < |samples| ensures Prefix(kind) + samples[i].source in Seen(kind, all) { assert all[i] == samples[i]; }
  }

  // ---- the reference: what one object went through -------------------------

  datatype Point = At(level: Level, at: Instant) | Gone

  function PointsIn(kind: Kind, samples: seq<Sample>, id: string, now: Instant): seq<Point> {
    if samples == [] then []
    else
      var s := samples[|samples| - 1];
      PointsIn(kind, samples[..|samples| - 1], id, now) + if Prefix(kind) + s.source == id then [At(Classify(kind, s.reading), now)] else []
  }

  // Every reading of one object, and a mark for each observation without it.
  function Trace(run: seq<Happening>, kind: Kind, id: string): seq<Point> {
    if run == [] then []
    else
      var last, init := run[|run| - 1], Trace(run[..|run| - 1], kind, id);
      if last.Observing? && last.o.kind == kind then
        init + PointsIn(kind, last.o.samples, id, last.o.now) + if id in Seen(kind, last.o.samples) then [] else [Gone]
      else init
  }

  function Current(trace: seq<Point>): Option<Level> {
    if trace != [] && trace[|trace| - 1].At? then Some(trace[|trace| - 1].level) else None
  }

  // When the current level was entered.
  function Entered(trace: seq<Point>): Instant
    requires Current(trace).Some?
  {
    var init, last := trace[..|trace| - 1], trace[|trace| - 1];
    if Current(init) == Some(last.level) then Entered(init) else last.at
  }

  // A recovery on a direct change from an alert level to normal, an alert on
  // every change to an alert level.
  function EventsOf(trace: seq<Point>, id: string): seq<Event> {
    if trace == [] then []
    else
      var init, last := trace[..|trace| - 1], trace[|trace| - 1];
      EventsOf(init, id)
      + if last.Gone? || Current(init) == Some(last.level) then []
        else if last.level != Normal then [Alert(id, last.level, last.at)]
        else if Current(init).Some? then [Recovery(id, last.at)]
        else []
  }

  function EventsFor(events: seq<Event>, id: string): seq<Event> {
    if events == [] then []
    else
      var last := events[|events| - 1];
      EventsFor(events[..|events| - 1], id) + if last.id == id then [last] else []
  }

  // Level, alert and events of one object are those of its trace.
  ghost predicate Follows(b: Board, id: string, trace: seq<Point>) {
    var now := Current(trace);
    && (if id in b.levels then now == Some(b.levels[id]) else now == None)
    && (if now.Some? && now.value != Normal then id in b.active && b.active[id] == Problem(now.value, Entered(trace)) else id !in b.active)
    && EventsFor(b.events, id) == EventsOf(trace, id)
  }

  lemma TraceNext(trace: seq<Point>, p: Point, id: string)
    ensures (trace + [p])[..|trace + [p]| - 1] == trace
    ensures Current(trace + [p]) == if p.At? then Some(p.level) else None
    ensures p.At? ==> Entered(trace + [p]) == if Current(trace) == Some(p.level) then Entered(trace) else p.at
    ensures p.Gone? ==> EventsOf(trace + [p], id) == EventsOf(trace, id)
  {
    assert (trace + [p])[..|trace + [p]| - 1] == trace;
  }

  lemma EventsNext(events: seq<Event>, e: Event, id: string)
    ensures EventsFor(events + [e], id) == if e.id == id then EventsFor(events, id) + [e] else EventsFor(events, id)
  {
    assert (events + [e])[..|events + [e]| - 1] == events;
  }

  lemma SampleFollows(b: Board, id: string, level: Level, now: Instant, trace: seq<Point>)
    requires Follows(b, id, trace)
    ensures Follows(Sampled(b, id, level, now), id, trace + [At(level, now)])
  {
    TraceNext(trace, At(level, now), id);
    EventsNext(b.events, Recovery(id, now), id);
    EventsNext(b.events, Alert(id, level, now), id);
  }

  lemma SampleElsewhere(b: Board, other: string, level: Level, now: Instant, id: string)
    requires id != other
    ensures var n := Sampled(b, other, level, now);
      && (id in n.levels <==> id in b.levels) && (id in b.levels ==> n.levels[id] == b.levels[id])
      && (id in n.active <==> id in b.active) && (id in b.active ==> n.active[id] == b.active[id])
      && EventsFor(n.events, id) == EventsFor(b.events, id)
  {
    EventsNext(b.events, Recovery(other, now), id);
    EventsNext(b.events, Alert(other, level, now), id);
  }

  function Extended(points: seq<Point>, id: string, other: string, level: Level, now: Instant): seq<Point> {
    if other == id then points + [At(level, now)] else points
  }

  lemma OneSampleFollows(b: Board, other: string, level: Level, now: Instant, id: string, points: seq<Point>)
    requires Follows(b, id, points)
    ensures Follows(Sampled(b, other, level, now), id, Extended(points, id, other, level, now))
  {
    if other == id { SampleFollows(b, id, level, now, points); } else { SampleElsewhere(b, other, level, now, id); }
  }

  lemma PointsNext(kind: Kind, samples: seq<Sample>, s: Sample, now: Instant, id: string, trace: seq<Point>)
    ensures trace + PointsIn(kind, samples + [s], id, now)
         == Extended(trace + PointsIn(kind, samples, id, now), id, Prefix(kind) + s.source, Classify(kind, s.reading), now)
  {
    assert (samples + [s])[..|samples + [s]| - 1] == samples;
  }

  lemma SamplesStep(b: Board, kind: Kind, samples: seq<Sample>, s: Sample, now: Instant, id: string, trace: seq<Point>)
    requires Follows(AllSampled(b, kind, samples, now), id, trace + PointsIn(kind, samples, id, now))
    ensures Follows(AllSampled(b, kind, samples + [s], now), id, trace + PointsIn(kind, samples + [s], id, now))
  {
    var before, points := AllSampled(b, kind, samples, now), trace + PointsIn(kind, samples, id, now);
    var other, level := Prefix(kind) + s.source, Classify(kind, s.reading);
    assert (samples + [s])[..|samples + [s]| - 1] == samples;
    assert AllSampled(b, kind, samples + [s], now) == Sampled(before, other, level, now);
    PointsNext(kind, samples, s, now, id, trace);
    OneSampleFollows(before, other, level, now, id, points);
  }

  lemma {:induction false} SamplesFollow(b: Board, kind: Kind, samples: seq<Sample>, now: Instant, id: string, trace: seq<Point>)
    requires Follows(b, id, trace)
    ensures Follows(AllSampled(b, kind, samples, now), id, trace + PointsIn(kind, samples, id, now))
  {
    if samples == [] {
      assert trace + [] == trace;
    } else {
      var init, s := samples[..|samples| - 1], samples[|samples| - 1];
      SamplesFollow(b, kind, init, now, id, trace);
      SamplesStep(b, kind, init, s, now, id, trace);
      assert samples == init + [s];
    }
  }

  lemma SweepFollows(b: Board, seen: set<string>, id: string, trace: seq<Point>)
    requires Follows(b, id, trace)
    ensures id in seen ==> Follows(Swept(b, seen), id, trace)
    ensures id !in seen ==> Follows(Swept(b, seen), id, trace + [Gone])
  {
    TraceNext(trace, Gone, id);
  }

  // ---- every run -----------------------------------------------------------

  const EMPTY := State(map[], map[], map[], [])

  // What other observers would do to ids of storage or thermal does not happen.
  function Run(run: seq<Happening>): State {
    if run == [] then EMPTY
    else
      var s, h := Run(run[..|run| - 1]), run[|run| - 1];
      if OthersOwn(h) then Happen(s, h) else s
  }

  ghost predicate OwnLevels(s: State) {
    (forall id :: id in s.storage ==> IdOf(Storage, id)) && forall id :: id in s.thermal ==> IdOf(Thermal, id)
  }

  // An observation of one kind leaves every object of another kind alone.
  ghost predicate SameFor(a: Board, b: Board, id: string) {
    && (id in a.active <==> id in b.active) && (id in a.active ==> b.active[id] == a.active[id])
    && EventsFor(a.events, id) == EventsFor(b.events, id)
  }

  lemma {:induction false} SamplesElsewhere(b: Board, kind: Kind, samples: seq<Sample>, now: Instant, id: string)
    requires !IdOf(kind, id) && forall k :: k in b.levels ==> IdOf(kind, k)
    ensures var n := AllSampled(b, kind, samples, now); SameFor(b, n, id) && forall k :: k in n.levels ==> IdOf(kind, k)
  {
    if samples != [] {
      var init, s := samples[..|samples| - 1], samples[|samples| - 1];
      SamplesElsewhere(b, kind, init, now, id);
      SampleElsewhere(AllSampled(b, kind, init, now), Prefix(kind) + s.source, Classify(kind, s.reading), now, id);
    }
  }

  lemma ObserveElsewhere(b: Board, kind: Kind, samples: seq<Sample>, now: Instant, id: string)
    requires !IdOf(kind, id) && forall k :: k in b.levels ==> IdOf(kind, k)
    ensures var n := Observed(b, kind, samples, now); SameFor(b, n, id) && forall k :: k in n.levels ==> IdOf(kind, k)
  {
    SamplesElsewhere(b, kind, samples, now, id);
  }

  lemma {:induction false} LevelsAreOwn(run: seq<Happening>)
    ensures OwnLevels(Run(run))
  {
    if run != [] {
      var s, h := Run(run[..|run| - 1]), run[|run| - 1];
      LevelsAreOwn(run[..|run| - 1]);
      if h.Observing? {
        ObserveElsewhere(BoardOf(s, h.o.kind), h.o.kind, h.o.samples, h.o.now, "");
      }
    }
  }

  lemma {:induction false} EventsOfOther(events: seq<Event>, more: seq<Event>, id: string)
    requires forall i :: 0 <= i < |more| ==> more[i].id != id
    ensures EventsFor(events + more, id) == EventsFor(events, id)
  {
    if more == [] {
      assert events + more == events;
    } else {
      EventsOfOther(events, more[..|more| - 1], id);
      InitOfConcat(events, more);
    }
  }

  lemma OtherElsewhere(s: State, h: Happening, kind: Kind, id: string, trace: seq<Point>)
    requires h.Other? && OthersOwn(h) && IdOf(kind, id) && Follows(BoardOf(s, kind), id, trace)
    ensures Follows(BoardOf(Happen(s, h), kind), id, trace)
  {
    assert h.id != id;
    EventsOfOther(s.events, h.events, id);
  }

  lemma ObservedElsewhere(s: State, o: Observation, kind: Kind, id: string, trace: seq<Point>)
    requires OwnLevels(s) && o.kind != kind && IdOf(kind, id) && Follows(BoardOf(s, kind), id, trace)
    ensures Follows(BoardOf(Step(s, o), kind), id, trace)
  {
    if IdOf(o.kind, id) { PrefixesDiffer(kind, o.kind, id); }
    ObserveElsewhere(BoardOf(s, o.kind), o.kind, o.samples, o.now, id);
  }

  lemma ObservationFollows(b: Board, o: Observation, id: string, trace: seq<Point>)
    requires Follows(b, id, trace)
    ensures Follows(Observed(b, o.kind, o.samples, o.now), id,
                    trace + PointsIn(o.kind, o.samples, id, o.now) + if id in Seen(o.kind, o.samples) then [] else [Gone])
  {
    var points := trace + PointsIn(o.kind, o.samples, id, o.now);
    SamplesFollow(b, o.kind, o.samples, o.now, id, trace);
    SweepFollows(AllSampled(b, o.kind, o.samples, o.now), Seen(o.kind, o.samples), id, points);
    assert points + [] == points;
  }

  // In every interleaving of the observers, whatever objects vanish and come back,
  // an object's alert is active exactly while its recorded level is not normal,
  // with that level as its severity, since the level was entered; and its events
  // are the changes of its level.
  lemma {:induction false} AlertsFollowLevels(run: seq<Happening>, kind: Kind, id: string)
    requires IdOf(kind, id)
    ensures Follows(BoardOf(Run(run), kind), id, Trace(run, kind, id))
  {
    if run != [] {
      var init, h := run[..|run| - 1], run[|run| - 1];
      var s, trace := Run(init), Trace(init, kind, id);
      AlertsFollowLevels(init, kind, id);
      if h.Other? {
        if OthersOwn(h) { OtherElsewhere(s, h, kind, id, trace); }
      } else if h.o.kind == kind {
        ObservationFollows(BoardOf(s, kind), h.o, id, trace);
      } else {
        LevelsAreOwn(init);
        ObservedElsewhere(s, h.o, kind, id, trace);
      }
    }
  }

  // What the other observers themselves last did to one of their ids.
  function OwnEntry(run: seq<Happening>, id: string): Option<Problem> {
    if run == [] then None
    else
      var h := run[|run| - 1];
      if h.Other? && h.id == id && OthersOwn(h) then h.problem else OwnEntry(run[..|run| - 1], id)
  }

  // Alerts of the other observers are theirs alone.
  lemma {:induction false} OthersStay(run: seq<Happening>, id: string)
    requires IsOthers(id)
    ensures var active := Run(run).active; OwnEntry(run, id) == if id in active then Some(active[id]) else None
  {
    if run != [] {
      var init, h := run[..|run| - 1], run[|run| - 1];
      OthersStay(init, id);
      if h.Observing? {
        LevelsAreOwn(init);
        ObserveElsewhere(BoardOf(Run(init), h.o.kind), h.o.kind, h.o.samples, h.o.now, id);
      }
    }
  }
}
