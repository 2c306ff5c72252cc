// The terminal session manager. A create runs three separate critical
// sections (clean-up, replacement, insertion) and starts its shell between the
// last two, so creates, closes and the janitor interleave.

module TerminalSessions {
  type Id = string
  type Client = string

  const SESSION_LIMIT: nat := 4

  function OfClient(sessions: map<Id, Client>, client: Client): set<Id> {
    set id | id in sessions && sessions[id] == client
  }

  // ---- the critical sections -----------------------------------------------

  class Manager {
    var sessions: map<Id, Client>

    constructor ()
      ensures sessions == map[]
    {
      sessions := map[];
    }

    // Delete the sessions of one client.
    method TakeClient(client: Client) returns (taken: set<Id>)
      modifies this
      ensures taken == OfClient(old(sessions), client)
      ensures sessions == old(sessions) - taken
    {
      taken := {};
      var todo := sessions.Keys;
      while todo != {}
        invariant todo <= old(sessions).Keys
        invariant taken == OfClient(old(sessions), client) - todo
        invariant sessions == old(sessions) - taken
        decreases todo
      {
        var id :| id in todo;
        todo := todo - {id};
        if sessions[id] == client {
          sessions := sessions - {id};
          taken := taken + {id};
        }
      }
    }

    method FirstSection(client: Client) returns (replaced: set<Id>, full: bool)
      modifies this
      ensures replaced == OfClient(old(sessions), client)
      ensures sessions == old(sessions) - replaced
      ensures full <==> |sessions| >= 4
      ensures forall id :: id in replaced <==> id in old(sessions) && old(sessions)[id] == client
    {
      replaced := TakeClient(client);
      full := |sessions| >= SESSION_LIMIT;
    }

    method SecondSection(id: Id, client: Client) returns (superseded: set<Id>, inserted: bool)
      modifies this
      ensures superseded == OfClient(old(sessions), client)
      ensures inserted <==> |old(sessions) - superseded| < 4
      ensures sessions == if inserted then (old(sessions) - superseded)[id := client] else old(sessions) - superseded
      ensures forall other :: other in superseded <==> other in old(sessions) && old(sessions)[other] == client
      ensures inserted ==> id in sessions && sessions[id] == client
      ensures forall other :: other in old(sessions) && old(sessions)[other] != client && other != id ==>
        other in sessions && sessions[other] == old(sessions)[other]
      ensures forall other :: other in sessions ==> (other == id && inserted) || (other in old(sessions) && old(sessions)[other] != client)
    {
      superseded := TakeClient(client);
      inserted := |sessions| < SESSION_LIMIT;
      if inserted { sessions := sessions[id := client]; }
    }

    // cleanupInactive, given the sessions that are closed or idle by now.
    method TakeStale(stale: set<Id>) returns (taken: set<Id>)
      modifies this
      ensures taken == old(sessions).Keys * stale
      ensures sessions == old(sessions) - taken
    {
      taken := {};
      var todo := sessions.Keys;
      while todo != {}
        invariant todo <= old(sessions).Keys
        invariant taken == old(sessions).Keys * stale - todo
        invariant sessions == old(sessions) - taken
        decreases todo
      {
        var id :| id in todo;
        todo := todo - {id};
        if id in stale {
          sessions := sessions - {id};
          taken := taken + {id};
        }
      }
    }

    method Remove(id: Id)
      modifies this
      ensures sessions == old(sessions) - {id}
    {
      sessions := sessions - {id};
    }
  }

  // ---- all interleavings ---------------------------------------------------

  datatype Pc = Clean(client: Client) | First(client: Client) | Launch(client: Client) | Holding(client: Client, id: Id) | Finished

  // doomed: the sessions the thread has taken out of the map and will close.
  datatype Thread = Thread(pc: Pc, doomed: set<Id>)

  datatype State = State(sessions: map<Id, Client>, started: set<Id>, closed: set<Id>, threads: map<nat, Thread>)

  datatype Event =
    | Arrive(t: nat, client: Client)
    | CleanUp(t: nat, idle: set<Id>)
    | JanitorPass(t: nat, idle: set<Id>)
    | CloseRequest(t: nat, id: Id)
    | CloseOne(t: nat, id: Id)
    | EnterFirst(t: nat)
    | ShellFails(t: nat)
    | ShellStarts(t: nat, id: Id)
    | EnterSecond(t: nat)
    | ShellExits(id: Id)

  const INIT := State(map[], {}, {}, map[])

  // A thread takes its next step once it has closed what it took.
  predicate Can(s: State, t: nat) { t in s.threads && s.threads[t].doomed == {} }

  predicate Enabled(s: State, e: Event) {
    match e
    case Arrive(t, _) => t !in s.threads
    case CleanUp(t, _) => Can(s, t) && s.threads[t].pc.Clean?
    case JanitorPass(t, _) => t !in s.threads
    case CloseRequest(t, id) => t !in s.threads && id in s.started
    case CloseOne(t, id) => t in s.threads && id in s.threads[t].doomed
    case EnterFirst(t) => Can(s, t) && s.threads[t].pc.First?
    case ShellFails(t) => Can(s, t) && s.threads[t].pc.Launch?
    case ShellStarts(t, id) => Can(s, t) && s.threads[t].pc.Launch? && id !in s.started
    case EnterSecond(t) => Can(s, t) && s.threads[t].pc.Holding?
    case ShellExits(id) => id in s.started
  }

  function At(s: State, t: nat, pc: Pc, doomed: set<Id>): map<nat, Thread> { s.threads[t := Thread(pc, doomed)] }

  // cleanupInactive takes the closed sessions and those idle too long.
  function Stale(s: State, idle: set<Id>): set<Id> { s.sessions.Keys * (s.closed + idle) }

  function Step(s: State, e: Event): State
    requires Enabled(s, e)
  {
    match e
    case Arrive(t, client) => s.(threads := At(s, t, Clean(client), {}))
    case CleanUp(t, idle) =>
      var taken := Stale(s, idle);
      s.(sessions := s.sessions - taken, threads := At(s, t, First(s.threads[t].pc.client), taken))
    case JanitorPass(t, idle) =>
      var taken := Stale(s, idle);
      s.(sessions := s.sessions - taken, threads := At(s, t, Finished, taken))
    case CloseRequest(t, id) => s.(sessions := s.sessions - {id}, threads := At(s, t, Finished, {id}))
    case CloseOne(t, id) =>
      s.(closed := s.closed + {id}, threads := At(s, t, s.threads[t].pc, s.threads[t].doomed - {id}))
    case EnterFirst(t) =>
      var client := s.threads[t].pc.client;
      var replaced := OfClient(s.sessions, client);
      var rest := s.sessions - replaced;
      s.(sessions := rest, threads := At(s, t, if |rest| >= SESSION_LIMIT then Finished else Launch(client), replaced))
    case ShellFails(t) => s.(threads := At(s, t, Finished, {}))
    case ShellStarts(t, id) => s.(started := s.started + {id}, threads := At(s, t, Holding(s.threads[t].pc.client, id), {}))
    case EnterSecond(t) =>
      var client, id := s.threads[t].pc.client, s.threads[t].pc.id;
      var superseded := OfClient(s.sessions, client);
      var rest := s.sessions - superseded;
      if |rest| >= SESSION_LIMIT then s.(sessions := rest, threads := At(s, t, Finished, superseded + {id}))
      else s.(sessions := rest[id := client], threads := At(s, t, Finished, superseded))
    case ShellExits(id) => s.(closed := s.closed + {id})
  }

  // The steps of a thread are the sections of the manager: what they take from
  // the map, when they go on, and what they put into it.
  lemma SweepIsSection(s: State, e: Event)
    requires Enabled(s, e) && (e.CleanUp? || e.JanitorPass?)
    ensures var n := Step(s, e);
      && (forall id :: id in n.threads[e.t].doomed <==> id in s.sessions && (id in s.closed || id in e.idle))
      && n.sessions == s.sessions - n.threads[e.t].doomed
  {}

  lemma FirstIsSection(s: State, t: nat)
    requires Enabled(s, EnterFirst(t))
    ensures var n, client := Step(s, EnterFirst(t)), s.threads[t].pc.client;
      && (forall id :: id in n.threads[t].doomed <==> id in s.sessions && s.sessions[id] == client)
      && n.sessions == s.sessions - n.threads[t].doomed
      && n.threads[t].pc == if |n.sessions| >= 4 then Finished else Launch(client)
  {}

  lemma SecondIsSection(s: State, t: nat)
    requires Enabled(s, EnterSecond(t))
    ensures var n, client, mine := Step(s, EnterSecond(t)), s.threads[t].pc.client, s.threads[t].pc.id;
      var others := s.sessions - set id | id in s.sessions && s.sessions[id] == client;
      && n.threads[t].pc == Finished && n.sessions == (if |others| >= 4 then others else others[mine := client])
      && (forall id :: id in n.threads[t].doomed <==>
            (id in s.sessions && s.sessions[id] == client) || (id == mine && |others| >= 4))
  {
    var client := s.threads[t].pc.client;
    assert OfClient(s.sessions, client) == set id | id in s.sessions && s.sessions[id] == client;
  }

  // An event that is not enabled does not happen: the event sequences are all
  // the interleavings.
  function Run(s: State, events: seq<Event>): State {
    if events == [] then s
    else
      var before, e := Run(s, events[..|events| - 1]), events[|events| - 1];
      if Enabled(before, e) then Step(before, e) else before
  }

  ghost predicate OnePerClient(sessions: map<Id, Client>) {
    forall a, b :: a in sessions && b in sessions && sessions[a] == sessions[b] ==> a == b
  }

  predicate Owns(th: Thread, id: Id) { id in th.doomed || (th.pc.Holding? && th.pc.id == id) }

  // No started shell is lost: it is in the map, closed, or some thread is
  // about to close or insert it.
  ghost predicate Kept(s: State, id: Id) {
    id in s.sessions || id in s.closed || exists t :: t in s.threads && Owns(s.threads[t], id)
  }

  // The thread has started a shell and not yet inserted it.
  predicate Holds(s: State, t: nat) { t in s.threads && s.threads[t].pc.Holding? }

  ghost predicate AllKept(s: State) { forall id :: id in s.started ==> Kept(s, id) }

  // What threads hold is started, not yet in the map, and held once.
  ghost predicate HeldApart(s: State) {
    && s.sessions.Keys <= s.started
    && (forall t :: Holds(s, t) ==> s.threads[t].pc.id in s.started && s.threads[t].pc.id !in s.sessions)
    && (forall t, u :: Holds(s, t) && Holds(s, u) && s.threads[t].pc.id == s.threads[u].pc.id ==> t == u)
  }

  ghost predicate Inv(s: State) {
    |s.sessions| <= SESSION_LIMIT && OnePerClient(s.sessions) && AllKept(s) && HeldApart(s)
  }

  // Dropping sessions keeps the limit and the client rule.
  lemma Dropping(sessions: map<Id, Client>, taken: set<Id>)
    requires OnePerClient(sessions)
    ensures OnePerClient(sessions - taken) && |sessions - taken| <= |sessions|
  {
    var rest := sessions - taken;
    assert rest.Keys + (sessions.Keys * taken) == sessions.Keys;
    assert |rest.Keys| + |sessions.Keys * taken| == |sessions.Keys|;
  }

  // A step that moves one thread to a place where it owns everything it took.
  ghost predicate Moves(s: State, s': State, t: nat, taken: set<Id>) {
    && s'.sessions == s.sessions - taken && s'.started == s.started && s'.closed == s.closed
    && t in s'.threads && taken <= s'.threads[t].doomed && s'.threads == s.threads[t := s'.threads[t]]
    && !s'.threads[t].pc.Holding?
    && (t in s.threads ==> forall id :: Owns(s.threads[t], id) ==> Owns(s'.threads[t], id))
  }

  lemma MoveKeepsOne(s: State, s': State, t: nat, taken: set<Id>, id: Id)
    requires Moves(s, s', t, taken) && Kept(s, id)
    ensures Kept(s', id)
  {
    if id in s.sessions && id !in s'.sessions {
      assert Owns(s'.threads[t], id);
    } else if id !in s.sessions && id !in s.closed {
      var u :| u in s.threads && Owns(s.threads[u], id);
      assert Owns(s'.threads[u], id);
    }
  }

  lemma MoveKeepsApart(s: State, s': State, t: nat, taken: set<Id>)
    requires Moves(s, s', t, taken) && HeldApart(s)
    ensures HeldApart(s')
  {
    forall u | Holds(s', u) ensures Holds(s, u) && s'.threads[u] == s.threads[u] {}
  }

  lemma MoveKeeps(s: State, s': State, t: nat, taken: set<Id>)
    requires Inv(s) && Moves(s, s', t, taken)
    ensures Inv(s')
  {
    Dropping(s.sessions, taken);
    forall id | id in s'.started ensures Kept(s', id) { MoveKeepsOne(s, s', t, taken, id); }
    MoveKeepsApart(s, s', t, taken);
  }

  lemma CloseOneKeeps(s: State, t: nat, id: Id)
    requires Inv(s) && Enabled(s, CloseOne(t, id))
    ensures Inv(Step(s, CloseOne(t, id)))
  {
    var s' := Step(s, CloseOne(t, id));
    forall i | i in s'.started ensures Kept(s', i) {
      if i !in s.sessions && i !in s'.closed {
        var u :| u in s.threads && Owns(s.threads[u], i);
        assert Owns(s'.threads[u], i);
      }
    }
  }

  lemma ShellStartsKeeps(s: State, t: nat, id: Id)
    requires Inv(s) && Enabled(s, ShellStarts(t, id))
    ensures Inv(Step(s, ShellStarts(t, id)))
  {
    var s' := Step(s, ShellStarts(t, id));
    assert Owns(s'.threads[t], id);
    forall i | i in s'.started ensures Kept(s', i) {
      if i in s.started && i !in s.sessions && i !in s.closed {
        var u :| u in s.threads && Owns(s.threads[u], i);
        assert Owns(s'.threads[u], i);
      }
    }
  }

  lemma AddingOne(rest: map<Id, Client>, client: Client, id: Id)
    requires id !in rest && forall a :: a in rest ==> rest[a] != client
    ensures |rest[id := client]| == |rest| + 1
    ensures OnePerClient(rest) ==> OnePerClient(rest[id := client])
  {
    assert rest[id := client].Keys == rest.Keys + {id};
  }

  lemma Inserting(sessions: map<Id, Client>, client: Client, id: Id, superseded: set<Id>, rest: map<Id, Client>)
    requires OnePerClient(sessions) && superseded == OfClient(sessions, client) && |rest| < SESSION_LIMIT
    requires rest == sessions - superseded && id !in sessions
    ensures OnePerClient(rest[id := client]) && |rest[id := client]| <= SESSION_LIMIT
  {
    Dropping(sessions, superseded);
    forall a | a in rest ensures rest[a] != client { assert a !in superseded; }
    AddingOne(rest, client, id);
  }

  // A step that inserts what the thread held.
  ghost predicate Inserts(s: State, s': State, t: nat, superseded: set<Id>) {
    && t in s.threads && s.threads[t].pc.Holding? && s.threads[t].doomed == {}
    && superseded == OfClient(s.sessions, s.threads[t].pc.client) && |s.sessions - superseded| < SESSION_LIMIT
    && s'.started == s.started && s'.closed == s.closed && s'.threads == At(s, t, Finished, superseded)
    && s'.sessions == (s.sessions - superseded)[s.threads[t].pc.id := s.threads[t].pc.client]
  }

  lemma InsertKeepsOne(s: State, s': State, t: nat, superseded: set<Id>, id: Id)
    requires Inserts(s, s', t, superseded) && Kept(s, id)
    ensures Kept(s', id)
  {
    if id in superseded {
      assert Owns(s'.threads[t], id);
    } else if id !in s'.sessions && id !in s.closed {
      var u :| u in s.threads && Owns(s.threads[u], id);
      assert Owns(s'.threads[u], id);
    }
  }

  lemma InsertKeepsApart(s: State, s': State, t: nat, superseded: set<Id>)
    requires Inserts(s, s', t, superseded) && HeldApart(s)
    ensures HeldApart(s')
  {
    assert Holds(s, t);
    forall u | Holds(s', u) ensures Holds(s, u) && u != t && s'.threads[u] == s.threads[u] {}
  }

  lemma InsertKeeps(s: State, s': State, t: nat, superseded: set<Id>)
    requires Inv(s) && Inserts(s, s', t, superseded)
    ensures Inv(s')
  {
    assert Holds(s, t);
    Inserting(s.sessions, s.threads[t].pc.client, s.threads[t].pc.id, superseded, s.sessions - superseded);
    forall id | id in s'.started ensures Kept(s', id) { InsertKeepsOne(s, s', t, superseded, id); }
    InsertKeepsApart(s, s', t, superseded);
  }

  lemma EnterSecondKeeps(s: State, t: nat)
    requires Inv(s) && Enabled(s, EnterSecond(t))
    ensures Inv(Step(s, EnterSecond(t)))
  {
    var s' := Step(s, EnterSecond(t));
    var superseded := OfClient(s.sessions, s.threads[t].pc.client);
    if |s.sessions - superseded| >= SESSION_LIMIT {
      MoveKeeps(s, s', t, superseded);
    } else {
      InsertKeeps(s, s', t, superseded);
    }
  }

  lemma ShellExitsKeeps(s: State, id: Id)
    requires Inv(s) && Enabled(s, ShellExits(id))
    ensures Inv(Step(s, ShellExits(id)))
  {
    var s' := Step(s, ShellExits(id));
    forall i | i in s'.started ensures Kept(s', i) {
      if i !in s.sessions && i !in s'.closed {
        var u :| u in s.threads && Owns(s.threads[u], i);
        assert Owns(s'.threads[u], i);
      }
    }
  }

  lemma TakingKeeps(s: State, e: Event)
    requires Inv(s) && Enabled(s, e) && (e.CleanUp? || e.JanitorPass? || e.EnterFirst?)
    ensures Inv(Step(s, e))
  {
    var taken := if e.EnterFirst? then OfClient(s.sessions, s.threads[e.t].pc.client) else Stale(s, e.idle);
    MoveKeeps(s, Step(s, e), e.t, taken);
  }

  lemma RequestKeeps(s: State, e: Event)
    requires Inv(s) && Enabled(s, e) && (e.Arrive? || e.CloseRequest? || e.ShellFails?)
    ensures Inv(Step(s, e))
  {
    assert s.sessions - {} == s.sessions;
    MoveKeeps(s, Step(s, e), e.t, if e.CloseRequest? then {e.id} else {});
  }

  lemma StepKeepsInv(s: State, e: Event)
    requires Inv(s) && Enabled(s, e)
    ensures Inv(Step(s, e))
  {
    match e
    case CloseOne(t, id) => CloseOneKeeps(s, t, id);
    case ShellStarts(t, id) => ShellStartsKeeps(s, t, id);
    case EnterSecond(t) => EnterSecondKeeps(s, t);
    case ShellExits(id) => ShellExitsKeeps(s, id);
    case Arrive(_, _) | CloseRequest(_, _) | ShellFails(_) => RequestKeeps(s, e);
    case CleanUp(_, _) | JanitorPass(_, _) | EnterFirst(_) => TakingKeeps(s, e);
  }

  // In every interleaving.
  lemma {:induction false} EveryRunKeepsInv(events: seq<Event>)
    ensures Inv(Run(INIT, events))
  {
    if events != [] {
      EveryRunKeepsInv(events[..|events| - 1]);
      var before, e := Run(INIT, events[..|events| - 1]), events[|events| - 1];
      if Enabled(before, e) { StepKeepsInv(before, e); }
    }
  }

  lemma SessionsBounded(events: seq<Event>)
    ensures var s := Run(INIT, events);
      |s.sessions| <= SESSION_LIMIT && OnePerClient(s.sessions) && forall id :: id in s.started ==> Kept(s, id)
  {
    EveryRunKeepsInv(events);
  }

  // The shells that threads are about to close or to insert.
  ghost function Owned(s: State): set<Id> {
    set id | id in s.started && exists t :: t in s.threads && Owns(s.threads[t], id)
  }

  lemma AliveParts(alive: set<Id>, sessions: set<Id>, owned: set<Id>)
    requires alive <= sessions + owned && |sessions| <= SESSION_LIMIT
    ensures |alive| <= SESSION_LIMIT + |alive * owned|
  {
    var rest := alive - owned;
    assert rest + (sessions - rest) == sessions && |rest| + |sessions - rest| == |sessions|;
    assert rest + alive * owned == alive;
  }

  // At every moment a live shell can be reached through the map or is in the
  // hands of a thread, so beside those there are at most four.
  lemma LiveShellsBounded(events: seq<Event>)
    ensures var s := Run(INIT, events);
      var alive := s.started - s.closed;
      alive <= s.sessions.Keys + Owned(s) && |alive| <= SESSION_LIMIT + |alive * Owned(s)|
  {
    EveryRunKeepsInv(events);
    var s := Run(INIT, events);
    var alive := s.started - s.closed;
    forall id | id in alive ensures id in s.sessions.Keys + Owned(s) { assert Kept(s, id); }
    AliveParts(alive, s.sessions.Keys, Owned(s));
  }

  // Once every request is finished at most four shells are alive, and each of
  // them is reachable through the map.
  lemma NoShellLeaks(events: seq<Event>)
    ensures var s := Run(INIT, events);
      (forall t :: t in s.threads ==> s.threads[t] == Thread(Finished, {})) ==>
        s.started - s.closed <= s.sessions.Keys && |s.started - s.closed| <= SESSION_LIMIT
  {
    LiveShellsBounded(events);
    var s := Run(INIT, events);
    if forall t :: t in s.threads ==> s.threads[t] == Thread(Finished, {}) {
      assert Owned(s) == {};
      assert s.sessions.Keys + {} == s.sessions.Keys;
      assert (s.started - s.closed) * {} == {};
    }
  }
}
