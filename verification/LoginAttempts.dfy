// The login-attempt table: failures per client, a block after five of them,
// and a bound on the table that must not depend on map iteration order.

module LoginAttempts {
  import opened Text
  import opened Orders

  // Nanoseconds since Go's zero time.
  type Instant = nat

  const ZERO: Instant := 0
  const SECOND: Instant := 1_000_000_000
  const WINDOW: Instant := 300 * SECOND
  const BLOCK_TTL: Instant := 30 * SECOND
  const MAX_ENTRIES: nat := 1024
  const MAX_FAILURES: nat := 5

  datatype Attempt = Attempt(windowStart: Instant, failures: nat, blockedUntil: Instant)

  type Table = map<string, Attempt>

  const NO_ATTEMPT := Attempt(ZERO, 0, ZERO)

  function Of(t: Table, client: string): Attempt { if client in t then t[client] else NO_ATTEMPT }

  predicate Blocked(a: Attempt, now: Instant) { a.blockedUntil > now }

  predicate Lapsed(a: Attempt, now: Instant) { a.windowStart == ZERO || now - a.windowStart > WINDOW }

  predicate Expired(a: Attempt, now: Instant) { !Blocked(a, now) && Lapsed(a, now) }

  function RetentionTime(a: Attempt): Instant {
    if a.blockedUntil > a.windowStart then a.blockedUntil else a.windowStart
  }

  predicate EvictsBefore(c: string, a: Attempt, d: string, b: Attempt, now: Instant) {
    if Blocked(a, now) != Blocked(b, now) then !Blocked(a, now)
    else if RetentionTime(a) != RetentionTime(b) then RetentionTime(a) < RetentionTime(b)
    else Less(c, d)
  }

  function Before(t: Table, now: Instant): (string, string) -> bool {
    (c: string, d: string) => EvictsBefore(c, Of(t, c), d, Of(t, d), now)
  }

  // The eviction order is a strict total order: the victim never depends on
  // the order in which the map is visited.
  lemma BeforeIsTotal(t: Table, now: Instant)
    ensures StrictTotal(Before(t, now))
  {
    var before := Before(t, now);
    forall x ensures !before(x, x) { LessIrreflexive(x); }
    forall x, y ensures x == y || before(x, y) || before(y, x) { LessTotal(x, y); }
    forall x, y, z | before(x, y) && before(y, z) ensures before(x, z) {
      if Less(x, y) && Less(y, z) { LessTransitive(x, y, z); }
    }
  }

  // ---- cleanup -------------------------------------------------------------

  function Live(t: Table, now: Instant): Table { map c | c in t && !Expired(t[c], now) :: t[c] }

  // The entries capacity lets stay: all but the first others in eviction order.
  ghost function Survivors(t: Table, keep: string, now: Instant): set<string> {
    if |t| <= MAX_ENTRIES then t.Keys
    else
      BeforeIsTotal(t, now);
      OthersAreMany(t, keep);
      t.Keys - First(t.Keys - {keep}, Before(t, now), |t| - MAX_ENTRIES)
  }

  lemma OthersAreMany(t: Table, keep: string)
    ensures |t.Keys - {keep}| >= |t| - 1
  {
    SubsetSize(t.Keys, t.Keys - {keep} + {keep});
  }

  function Restricted(t: Table, keys: set<string>): Table { map c | c in t && c in keys :: t[c] }

  // What cleanup leaves: the entries that have not expired and, when they are
  // too many, the kept one and the last others in eviction order.
  ghost function Cleaned(t: Table, keep: string, now: Instant): Table {
    Restricted(Live(t, now), Survivors(Live(t, now), keep, now))
  }

  // Capacity does not want to evict the empty key. When it does, the scan takes
  // the empty key for no victim at all, and what is left depends on the order
  // of the visits.
  ghost predicate Orderly(t: Table, keep: string, now: Instant) {
    "" in Live(t, now) ==> "" in Cleaned(t, keep, now)
  }

  // What cleanup leaves in any case: nothing live is evicted below capacity,
  // and neither the kept nor the empty key ever is.
  ghost predicate Shrunk(t: Table, left: Table, keep: string) {
    && left.Keys <= t.Keys && (forall c :: c in left ==> left[c] == t[c])
    && (keep in t ==> keep in left) && ("" in t ==> "" in left)
    && (|left| < |t| ==> |left| >= MAX_ENTRIES)
  }

  ghost predicate CleanedUp(t: Table, left: Table, keep: string, now: Instant) {
    (left == Cleaned(t, keep, now) <==> Orderly(t, keep, now)) && Shrunk(Live(t, now), left, keep)
  }

  // The failure that is recorded now.
  function Recorded(a: Attempt, now: Instant): Attempt {
    var b := if Lapsed(a, now) then Attempt(now, 0, ZERO) else a;
    if b.failures + 1 >= MAX_FAILURES then Attempt(now, 0, now + BLOCK_TTL)
    else b.(failures := b.failures + 1)
  }

  function Wait(a: Attempt, now: Instant): nat { if Blocked(a, now) then a.blockedUntil - now else 0 }

  // left is what k evictions leave of t.
  ghost predicate EvictedDown(t: Table, left: Table, keep: string, now: Instant, k: nat) {
    && left.Keys <= t.Keys && (forall c :: c in left ==> left[c] == t[c]) && |left| == |t| - k
    && IsCut(t.Keys - {keep}, Before(t, now), k, t.Keys - left.Keys)
  }

  lemma NoneEvicted(t: Table, keep: string, now: Instant)
    ensures EvictedDown(t, t, keep, now, 0)
  {
    assert t.Keys - t.Keys == {};
  }

  lemma OneMoreEvicted(t: Table, left: Table, keep: string, now: Instant, k: nat, victim: string)
    requires EvictedDown(t, left, keep, now, k) && victim in left && victim != keep
    requires forall c :: c in left && c != keep && c != victim ==> Before(left, now)(victim, c)
    ensures EvictedDown(t, left - {victim}, keep, now, k + 1)
  {
    var all, low := t.Keys - {keep}, t.Keys - left.Keys;
    forall c | c in all - low && c != victim ensures Before(t, now)(victim, c) {
      assert Before(left, now)(victim, c) && Of(left, c) == Of(t, c) && Of(left, victim) == Of(t, victim);
    }
    CutGrows(all, Before(t, now), k, low, victim);
    var next := left - {victim};
    assert next.Keys == left.Keys - {victim} && t.Keys - next.Keys == low + {victim};
    assert |next.Keys| == |left.Keys| - 1;
  }

  lemma AllEvicted(t: Table, left: Table, keep: string, now: Instant, k: nat)
    requires EvictedDown(t, left, keep, now, k)
    requires k == if |t| > MAX_ENTRIES then |t| - MAX_ENTRIES else 0
    ensures left == Restricted(t, Survivors(t, keep, now))
  {
    if |t| <= MAX_ENTRIES {
      SubsetSize(left.Keys, t.Keys);
      assert left == t;
    } else {
      FirstEvicted(t, left, keep, now);
    }
  }

  lemma FirstEvicted(t: Table, left: Table, keep: string, now: Instant)
    requires |t| > MAX_ENTRIES && EvictedDown(t, left, keep, now, |t| - MAX_ENTRIES)
    ensures left == Restricted(t, Survivors(t, keep, now))
  {
    var others, before, k := t.Keys - {keep}, Before(t, now), |t| - MAX_ENTRIES;
    BeforeIsTotal(t, now);
    OthersAreMany(t, keep);
    CutIsUnique(others, before, k, t.Keys - left.Keys, First(others, before, k));
    assert left.Keys == t.Keys - First(others, before, k);
  }

  // ---- the scan for a victim -----------------------------------------------

  // The victim after the clients of order have been visited. The empty string
  // stands for no victim.
  function Scan(t: Table, keep: string, now: Instant, order: seq<string>): string {
    if order == [] then ""
    else
      var victim, client := Scan(t, keep, now, order[..|order| - 1]), order[|order| - 1];
      if client == keep then victim
      else if victim == "" || EvictsBefore(client, Of(t, client), victim, Of(t, victim), now) then client
      else victim
  }

  ghost predicate IsFirst(t: Table, keep: string, now: Instant, m: string) {
    m in t && m != keep && forall c :: c in t && c != keep && c != m ==> Before(t, now)(m, c)
  }

  // The first other in eviction order is the empty key.
  ghost predicate EmptyFirst(t: Table, keep: string, now: Instant) { IsFirst(t, keep, now, "") }

  lemma {:induction false} FirstIsFound(t: Table, keep: string, now: Instant, order: seq<string>, m: string)
    requires IsFirst(t, keep, now, m) && m != "" && m in order && Distinct(order) && forall c :: c in order ==> c in t
    ensures Scan(t, keep, now, order) == m
  {
    BeforeIsTotal(t, now);
    var init, client := order[..|order| - 1], order[|order| - 1];
    var victim := Scan(t, keep, now, init);
    assert order == init + [client];
    if client != m {
      FirstIsFound(t, keep, now, init, m);
      assert client != keep ==> Before(t, now)(m, client) && !Before(t, now)(client, m);
    } else {
      ScanIsSeen(t, keep, now, init);
      assert m !in init by { assert forall k :: 0 <= k < |init| ==> init[k] == order[k]; }
      assert victim != "" ==> victim in order && Before(t, now)(m, victim);
    }
  }

  lemma {:induction false} ScanIsSeen(t: Table, keep: string, now: Instant, order: seq<string>)
    ensures var victim := Scan(t, keep, now, order); victim == "" || (victim in order && victim != keep)
  {
    if order != [] {
      ScanIsSeen(t, keep, now, order[..|order| - 1]);
      assert order == order[..|order| - 1] + [order[|order| - 1]];
    }
  }

  lemma {:induction false} NothingToScan(t: Table, keep: string, now: Instant, order: seq<string>)
    requires forall c :: c in order ==> c == keep
    ensures Scan(t, keep, now, order) == ""
  {
    if order != [] {
      var init, client := order[..|order| - 1], order[|order| - 1];
      assert order == init + [client];
      assert client in order && forall c :: c in init ==> c in order;
      NothingToScan(t, keep, now, init);
    }
  }

  lemma FirstOther(t: Table, keep: string, now: Instant) returns (m: string)
    requires t.Keys - {keep} != {}
    ensures IsFirst(t, keep, now, m)
  {
    BeforeIsTotal(t, now);
    m := HasFirst(t.Keys - {keep}, Before(t, now));
  }

  // Unless the empty key comes first, every scan finds the first other.
  lemma ScanFindsFirst(t: Table, keep: string, now: Instant, order: seq<string>)
    requires Lists(order, t.Keys) && !EmptyFirst(t, keep, now)
    ensures var victim := Scan(t, keep, now, order);
      (victim == "" <==> t.Keys - {keep} == {}) && (victim != "" ==> IsFirst(t, keep, now, victim))
  {
    if t.Keys - {keep} == {} {
      forall c | c in order ensures c == keep { assert c in t.Keys && c !in t.Keys - {keep}; }
      NothingToScan(t, keep, now, order);
    } else {
      var m := FirstOther(t, keep, now);
      FirstIsFound(t, keep, now, order, m);
    }
  }

  lemma ScanNext(t: Table, keep: string, now: Instant, order: seq<string>, client: string)
    ensures Scan(t, keep, now, order + [client]) ==
            var victim := Scan(t, keep, now, order);
            if client == keep then victim
            else if victim == "" || EvictsBefore(client, Of(t, client), victim, Of(t, victim), now) then client
            else victim
  {
    assert (order + [client])[..|order|] == order;
  }

  lemma ListsMore(order: seq<string>, s: set<string>, x: string)
    requires Lists(order, s) && x !in s
    ensures Lists(order + [x], s + {x})
  {
  }

  // With the empty key first, any other can be the victim, and so can nobody.
  lemma AnyVictim(t: Table, keep: string, now: Instant, c: string) returns (order: seq<string>)
    requires EmptyFirst(t, keep, now) && c in t && c != keep
    ensures Lists(order, t.Keys) && Scan(t, keep, now, order) == c
  {
    var rest := t.Keys - {"", c};
    order := Listing(rest);
    ScanIsSeen(t, keep, now, order);
    ScanNext(t, keep, now, order, "");
    ListsMore(order, rest, "");
    order := order + [""];
    if c == "" {
      assert rest + {""} == t.Keys;
    } else {
      ScanNext(t, keep, now, order, c);
      ListsMore(order, rest + {""}, c);
      order := order + [c];
      assert rest + {""} + {c} == t.Keys;
    }
  }

  ghost predicate OneVictim(t: Table, keep: string, now: Instant) {
    forall a, b :: Lists(a, t.Keys) && Lists(b, t.Keys) ==> Scan(t, keep, now, a) == Scan(t, keep, now, b)
  }

  // Above capacity the victim is the same in every order exactly when the empty
  // key does not come first.
  lemma OneVictimIff(t: Table, keep: string, now: Instant)
    requires |t| > MAX_ENTRIES
    ensures OneVictim(t, keep, now) <==> !EmptyFirst(t, keep, now)
  {
    if EmptyFirst(t, keep, now) {
      if t.Keys - {keep, ""} == {} { SubsetSize(t.Keys, {keep, ""}); }
      var c :| c in t.Keys - {keep, ""};
      var a := AnyVictim(t, keep, now, c);
      var b := AnyVictim(t, keep, now, "");
    } else {
      BeforeIsTotal(t, now);
      forall a, b | Lists(a, t.Keys) && Lists(b, t.Keys) ensures Scan(t, keep, now, a) == Scan(t, keep, now, b) {
        ScanFindsFirst(t, keep, now, a);
        ScanFindsFirst(t, keep, now, b);
      }
    }
  }

  // An empty key that comes first among too many is one of those to evict.
  lemma EmptyFirstIsEvicted(t: Table, left: Table, keep: string, now: Instant, k: nat)
    requires EvictedDown(t, left, keep, now, k) && |left| > MAX_ENTRIES && EmptyFirst(left, keep, now)
    ensures "" !in Survivors(t, keep, now)
  {
    var others, before, n := t.Keys - {keep}, Before(t, now), |t| - MAX_ENTRIES;
    BeforeIsTotal(t, now);
    OthersAreMany(t, keep);
    OneMoreEvicted(t, left, keep, now, k, "");
    var next := t.Keys - (left - {""}).Keys;
    CutsNest(others, before, k + 1, next, n, First(others, before, n));
    assert "" in next;
  }

  class Manager {
    var attempts: Table

    constructor ()
      ensures attempts == map[]
    {
      attempts := map[];
    }

    method DropExpired(now: Instant)
      modifies this
      ensures attempts == Live(old(attempts), now)
    {
      var todo := attempts.Keys;
      while todo != {}
        invariant todo <= attempts.Keys <= old(attempts).Keys
        invariant forall c :: c in attempts ==> attempts[c] == old(attempts)[c]
        invariant forall c :: c in old(attempts) ==> (c in attempts <==> c in todo || !Expired(old(attempts)[c], now))
        decreases todo
      {
        var client :| client in todo;
        todo := todo - {client};
        var attempt := attempts[client];
        if !(attempt.blockedUntil > now) {
          if attempt.windowStart == ZERO || now - attempt.windowStart > WINDOW { attempts := attempts - {client}; }
        }
      }
    }

    // The inner loop of the capacity check, in any order.
    method PickVictim(keep: string, now: Instant) returns (victim: string, ghost order: seq<string>)
      ensures Lists(order, attempts.Keys) && victim == Scan(attempts, keep, now, order)
      ensures victim != "" ==> victim in attempts && victim != keep
      ensures !EmptyFirst(attempts, keep, now) ==> (victim == "" <==> attempts.Keys - {keep} == {})
      ensures !EmptyFirst(attempts, keep, now) && victim != "" ==> IsFirst(attempts, keep, now, victim)
      ensures "" !in attempts ==> (victim == "" <==> forall c :: c in attempts ==> c == keep)
      ensures "" !in attempts && victim != "" ==> forall d :: d in attempts && d != keep && d != victim ==>
        var a, b := attempts[victim], attempts[d];
        var x := if a.windowStart < a.blockedUntil then a.blockedUntil else a.windowStart;
        var y := if b.windowStart < b.blockedUntil then b.blockedUntil else b.windowStart;
        && (a.blockedUntil > now ==> b.blockedUntil > now)
        && (a.blockedUntil > now || b.blockedUntil <= now ==> x <= y && (x == y ==> Less(victim, d)))
    {
      victim, order := "", [];
      var todo := attempts.Keys;
      while todo != {}
        invariant todo <= attempts.Keys && Lists(order, attempts.Keys - todo)
        invariant victim == Scan(attempts, keep, now, order)
        invariant victim != "" ==> victim in attempts && victim != keep
        decreases todo
      {
        var client :| client in todo;
        ScanNext(attempts, keep, now, order, client);
        ListsMore(order, attempts.Keys - todo, client);
        assert attempts.Keys - (todo - {client}) == attempts.Keys - todo + {client};
        todo, order := todo - {client}, order + [client];
        if client == keep { continue; }
        if victim == "" || EvictsBefore(client, attempts[client], victim, attempts[victim], now) { victim := client; }
      }
      assert attempts.Keys - todo == attempts.Keys;
      if !EmptyFirst(attempts, keep, now) { ScanFindsFirst(attempts, keep, now, order); }
      if "" !in attempts {
        OthersOf(attempts, keep);
        if victim != "" { FirstInFields(attempts, keep, now, victim); }
      }
    }

    method Cleanup(now: Instant, keep: string)
      modifies this
      ensures CleanedUp(old(attempts), attempts, keep, now)
      // What stays is unchanged and has not expired.
      ensures forall c :: c in attempts ==> c in old(attempts) && attempts[c] == old(attempts)[c]
      ensures forall c :: c in attempts ==>
        attempts[c].blockedUntil > now || (attempts[c].windowStart != 0 && now - attempts[c].windowStart <= 300_000_000_000)
      // What goes without having expired makes room, and is neither kept nor empty.
      ensures forall c :: c in old(attempts) && c !in attempts ==>
        var a := old(attempts)[c];
        a.blockedUntil > now || (a.windowStart != 0 && now - a.windowStart <= 300_000_000_000) ==>
          c != keep && c != "" && |attempts| >= 1024
      ensures "" !in old(attempts) ==> |attempts| <= 1024
      // It is no later than whatever else stays.
      ensures "" !in old(attempts) ==> forall c :: c in old(attempts) && c !in attempts ==>
        var a := old(attempts)[c];
        var x := if a.windowStart < a.blockedUntil then a.blockedUntil else a.windowStart;
        a.blockedUntil > now || (a.windowStart != 0 && now - a.windowStart <= 300_000_000_000) ==> forall d :: d in attempts && d != keep ==>
          var b := old(attempts)[d];
          var y := if b.windowStart < b.blockedUntil then b.blockedUntil else b.windowStart;
          && (a.blockedUntil > now ==> b.blockedUntil > now)
          && (a.blockedUntil > now || b.blockedUntil <= now ==> x <= y && (x == y ==> Less(c, d)))
    {
      ghost var t := attempts;
      DropExpired(now);
      EvictDown(now, keep);
      CleanedInFields(t, attempts, keep, now);
    }

    method EvictDown(now: Instant, keep: string)
      modifies this
      ensures Shrunk(old(attempts), attempts, keep)
      ensures attempts == Restricted(old(attempts), Survivors(old(attempts), keep, now)) <==>
              ("" in old(attempts) ==> "" in Survivors(old(attempts), keep, now))
    {
      ghost var t := attempts;
      ghost var k := 0;
      NoneEvicted(t, keep, now);
      while |attempts| > MAX_ENTRIES
        invariant Shrunk(t, attempts, keep)
        invariant ("" in t ==> "" in Survivors(t, keep, now)) ==> EvictedDown(t, attempts, keep, now, k) && (k > 0 ==> |t| - k >= MAX_ENTRIES)
        decreases |attempts|
      {
        ghost var order;
        var victim;
        victim, order := PickVictim(keep, now);
        if "" in t ==> "" in Survivors(t, keep, now) {
          if EmptyFirst(attempts, keep, now) { EmptyFirstIsEvicted(t, attempts, keep, now, k); }
        }
        if victim == "" {
          if attempts.Keys - {keep} == {} { TooFew(attempts.Keys, keep); }
          break;
        }
        if "" in t ==> "" in Survivors(t, keep, now) { OneMoreEvicted(t, attempts, keep, now, k, victim); }
        OneLess(t, attempts, keep, victim);
        attempts := attempts - {victim};
        k := k + 1;
      }
      if "" in t ==> "" in Survivors(t, keep, now) { AllEvicted(t, attempts, keep, now, k); }
    }

    method LoginBlockedFor(client: string, now: Instant) returns (wait: nat)
      modifies this
      ensures CleanedUp(old(attempts), attempts, client, now)
      ensures wait == Wait(Of(old(attempts), client), now)
      ensures wait == if client in old(attempts) && old(attempts)[client].blockedUntil > now then old(attempts)[client].blockedUntil - now else 0
    {
      Cleanup(now, client);
      if client !in attempts { return 0; }
      var attempt := attempts[client];
      if attempt.blockedUntil > now { return attempt.blockedUntil - now; }
      wait := 0;
    }

    method RecordLoginFailure(client: string, now: Instant)
      modifies this
      ensures CleanedUp(old(attempts)[client := Recorded(Of(old(attempts), client), now)], attempts, client, now)
      ensures now > 0 ==> client in attempts
      ensures now > 0 ==>
        var running := client in old(attempts) && old(attempts)[client].windowStart != 0 && now - old(attempts)[client].windowStart <= 300_000_000_000;
        attempts[client] ==
          if !running then Attempt(now, 1, 0)
          else if old(attempts)[client].failures >= 4 then Attempt(now, 0, now + 30_000_000_000)
          else Attempt(old(attempts)[client].windowStart, old(attempts)[client].failures + 1, old(attempts)[client].blockedUntil)
    {
      var attempt := if client in attempts then attempts[client] else NO_ATTEMPT;
      if attempt.windowStart == ZERO || now - attempt.windowStart > WINDOW { attempt := Attempt(now, 0, ZERO); }
      attempt := attempt.(failures := attempt.failures + 1);
      if attempt.failures >= MAX_FAILURES {
        attempt := attempt.(blockedUntil := now + BLOCK_TTL);
        attempt := attempt.(failures := 0);
        attempt := attempt.(windowStart := now);
      }
      assert attempt == Recorded(Of(attempts, client), now);
      attempts := attempts[client := attempt];
      Cleanup(now, client);
    }

    method ClearLoginFailures(client: string)
      modifies this
      ensures attempts == old(attempts) - {client}
    {
      attempts := attempts - {client};
    }
  }

  // c is evicted no later than d, in the fields of their entries.
  ghost predicate Earlier(t: Table, now: Instant, c: string, d: string)
    requires c in t && d in t
  {
    var x := if t[c].windowStart < t[c].blockedUntil then t[c].blockedUntil else t[c].windowStart;
    var y := if t[d].windowStart < t[d].blockedUntil then t[d].blockedUntil else t[d].windowStart;
    && (t[c].blockedUntil > now ==> t[d].blockedUntil > now)
    && (t[c].blockedUntil > now || t[d].blockedUntil <= now ==> x <= y && (x == y ==> Less(c, d)))
  }

  lemma FirstInFields(t: Table, keep: string, now: Instant, m: string)
    requires IsFirst(t, keep, now, m)
    ensures forall d :: d in t && d != keep && d != m ==> Earlier(t, now, m, d)
  {
    forall d | d in t && d != keep && d != m ensures Earlier(t, now, m, d) {
      assert Before(t, now)(m, d);
      var a, b := Of(t, m), Of(t, d);
      assert EvictsBefore(m, a, d, b, now);
    }
  }

  lemma OthersOf(t: Table, keep: string)
    ensures t.Keys - {keep} == {} <==> forall c :: c in t ==> c == keep
  {
    if t.Keys - {keep} == {} {
      forall c | c in t ensures c == keep { assert c !in t.Keys - {keep}; }
    }
  }

  lemma CleanedInFields(t: Table, left: Table, keep: string, now: Instant)
    requires CleanedUp(t, left, keep, now)
    ensures forall c :: c in left ==> c in t && left[c] == t[c]
    ensures forall c :: c in left ==> left[c].blockedUntil > now || (left[c].windowStart != 0 && now - left[c].windowStart <= 300_000_000_000)
    ensures forall c :: c in t && c !in left ==>
      var a := t[c];
      a.blockedUntil > now || (a.windowStart != 0 && now - a.windowStart <= 300_000_000_000) ==>
        c != keep && c != "" && |left| >= 1024
    ensures "" !in t ==> |left| <= 1024
    ensures "" !in t ==> forall c :: c in t && c !in left ==>
      var a := t[c];
      var x := if a.windowStart < a.blockedUntil then a.blockedUntil else a.windowStart;
      a.blockedUntil > now || (a.windowStart != 0 && now - a.windowStart <= 300_000_000_000) ==> forall d :: d in left && d != keep ==>
        var b := t[d];
        var y := if b.windowStart < b.blockedUntil then b.blockedUntil else b.windowStart;
        && (a.blockedUntil > now ==> b.blockedUntil > now)
        && (a.blockedUntil > now || b.blockedUntil <= now ==> x <= y && (x == y ==> Less(c, d)))
  {
    LeftInFields(t, left, keep, now);
    if "" !in t { LeftInOrder(t, left, keep, now); }
  }

  lemma LeftInFields(t: Table, left: Table, keep: string, now: Instant)
    requires CleanedUp(t, left, keep, now)
    ensures forall c :: c in left ==> c in t && left[c] == t[c] && !Expired(left[c], now)
    ensures forall c :: c in t && c !in left && !Expired(t[c], now) ==> c != keep && c != "" && |left| >= MAX_ENTRIES
  {
    var live := Live(t, now);
    forall c | c in t && c !in left && !Expired(t[c], now) ensures c != keep && c != "" && |left| >= MAX_ENTRIES {
      assert c in live;
      SubsetSize(left.Keys, live.Keys);
    }
  }

  lemma LeftInOrder(t: Table, left: Table, keep: string, now: Instant)
    requires CleanedUp(t, left, keep, now) && "" !in t
    ensures |left| <= MAX_ENTRIES
    ensures forall c, d :: c in t && c !in left && !Expired(t[c], now) && d in left && d in t && d != keep ==> Earlier(t, now, c, d)
  {
    OrderlyWhen(t, keep, now);
    CleanedSize(t, keep, now);
    forall c, d | c in t && c !in left && !Expired(t[c], now) && d in left && d in t && d != keep
      ensures Earlier(t, now, c, d)
    {
      EvictedComesFirst(t, keep, now, c, d);
    }
  }

  lemma OneLess(t: Table, left: Table, keep: string, victim: string)
    requires Shrunk(t, left, keep) && |left| > MAX_ENTRIES && victim in left && victim != keep && victim != ""
    ensures Shrunk(t, left - {victim}, keep) && |left - {victim}| == |left| - 1
  {
    var next := left - {victim};
    assert next.Keys == left.Keys - {victim};
    assert |next| == |next.Keys| && |left| == |left.Keys|;
  }

  lemma TooFew(keys: set<string>, keep: string)
    requires keys - {keep} == {}
    ensures |keys| <= 1
  {
    assert keys <= {keep};
    SubsetSize(keys, {keep});
  }

  // ---- what a cleanup keeps ------------------------------------------------

  // At most 1024 entries are left, and as many as that when there are.
  lemma CleanedSize(t: Table, keep: string, now: Instant)
    ensures |Cleaned(t, keep, now)| == if |Live(t, now)| > MAX_ENTRIES then MAX_ENTRIES else |Live(t, now)|
  {
    var live := Live(t, now);
    assert Cleaned(t, keep, now).Keys == Survivors(live, keep, now);
  }

  // The kept client loses its entry only by expiry.
  lemma KeptSurvives(t: Table, keep: string, now: Instant)
    requires keep in Live(t, now)
    ensures keep in Cleaned(t, keep, now) && Cleaned(t, keep, now)[keep] == t[keep]
  {}

  // Whatever capacity evicts comes before whatever else it leaves; in
  // particular no blocked entry goes while an unblocked one stays.
  lemma EvictedComesFirst(t: Table, keep: string, now: Instant, c: string, d: string)
    requires c in Live(t, now) && c !in Cleaned(t, keep, now) && d in Cleaned(t, keep, now) && d != keep
    ensures EvictsBefore(c, t[c], d, t[d], now)
    ensures t[c].blockedUntil > now ==> t[d].blockedUntil > now
    ensures t[c].blockedUntil > now || t[d].blockedUntil <= now ==>
      var x := if t[c].windowStart < t[c].blockedUntil then t[c].blockedUntil else t[c].windowStart;
      var y := if t[d].windowStart < t[d].blockedUntil then t[d].blockedUntil else t[d].windowStart;
      x <= y && (x == y ==> Less(c, d))
  {
    var live := Live(t, now);
    assert c in live.Keys - Survivors(live, keep, now) && d in live;
    assert Before(live, now)(c, d);
  }

  ghost predicate FailuresBounded(t: Table) { forall c :: c in t ==> t[c].failures < MAX_FAILURES }

  // After a recorded failure the client has its own entry with 0 to 4 failures.
  lemma OwnEntry(t: Table, client: string, now: Instant, after: Table)
    requires FailuresBounded(t) && now > ZERO
    requires CleanedUp(t[client := Recorded(Of(t, client), now)], after, client, now)
    ensures client in after && after[client] == Recorded(Of(t, client), now)
    ensures after[client].failures < MAX_FAILURES && FailuresBounded(after)
  {
    assert client in Live(t[client := Recorded(Of(t, client), now)], now);
  }

  // ---- every run -----------------------------------------------------------

  // spared is what a clean-up leaves when it is not orderly.
  datatype Event =
    | Failure(client: string, now: Instant, spared: set<string>)
    | Check(client: string, now: Instant, spared: set<string>)
    | Clear(client: string, now: Instant)

  ghost function CleanedAs(t: Table, keep: string, now: Instant, spared: set<string>): Table {
    if Orderly(t, keep, now) then Cleaned(t, keep, now) else Restricted(Live(t, now), spared + {keep, ""})
  }

  // The steps of a run cover whatever the methods leave.
  lemma CleanedUpIsStep(t: Table, left: Table, keep: string, now: Instant)
    requires CleanedUp(t, left, keep, now)
    ensures left == CleanedAs(t, keep, now, left.Keys)
  {
    if !Orderly(t, keep, now) { assert left.Keys == Restricted(Live(t, now), left.Keys + {keep, ""}).Keys; }
  }

  // Without the empty key, and below capacity, every clean-up is orderly.
  lemma OrderlyWhen(t: Table, keep: string, now: Instant)
    requires "" !in t || keep == "" || |t| <= MAX_ENTRIES
    ensures Orderly(t, keep, now)
  {
    if |t| <= MAX_ENTRIES { SubsetSize(Live(t, now).Keys, t.Keys); }
  }

  ghost function Step(t: Table, e: Event): Table {
    match e
    case Failure(client, now, spared) => CleanedAs(t[client := Recorded(Of(t, client), now)], client, now, spared)
    case Check(client, now, spared) => CleanedAs(t, client, now, spared)
    case Clear(client, _) => t - {client}
  }

  ghost function Run(events: seq<Event>): Table {
    if events == [] then map[] else Step(Run(events[..|events| - 1]), events[|events| - 1])
  }

  ghost predicate Ordered(events: seq<Event>) {
    && (forall i :: 0 <= i < |events| ==> events[i].now > ZERO)
    && forall i, j :: 0 <= i < j < |events| ==> events[i].now <= events[j].now
  }

  function Clients(events: seq<Event>): set<string> { set i | 0 <= i < |events| :: events[i].client }

  lemma {:induction false} EntriesAreClients(events: seq<Event>)
    ensures Run(events).Keys <= Clients(events)
  {
    if events != [] {
      var init := events[..|events| - 1];
      EntriesAreClients(init);
      forall c | c in Clients(init) ensures c in Clients(events) {
        var i :| 0 <= i < |init| && init[i].client == c;
        assert events[i].client == c;
      }
      assert events[|events| - 1].client in Clients(events);
    }
  }

  lemma StepStaysSmall(t: Table, e: Event)
    requires FailuresBounded(t)
    ensures FailuresBounded(Step(t, e))
    ensures "" !in t && e.client != "" && |t| <= MAX_ENTRIES ==> |Step(t, e)| <= MAX_ENTRIES
  {
    if "" !in t && e.client != "" {
      match e
      case Failure(client, now, _) =>
        var t1 := t[client := Recorded(Of(t, client), now)];
        OrderlyWhen(t1, client, now);
        CleanedSize(t1, client, now);
      case Check(client, now, _) =>
        OrderlyWhen(t, client, now);
        CleanedSize(t, client, now);
      case Clear(client, _) => SubsetSize((t - {client}).Keys, t.Keys);
    }
  }

  // In every run no entry has five failures, and while nobody comes with the
  // empty key there are at most 1024 entries.
  lemma {:induction false} TableStaysSmall(events: seq<Event>)
    ensures FailuresBounded(Run(events))
    ensures "" !in Clients(events) ==> |Run(events)| <= MAX_ENTRIES
  {
    if events != [] {
      var init, e := events[..|events| - 1], events[|events| - 1];
      TableStaysSmall(init);
      EntriesAreClients(init);
      StepStaysSmall(Run(init), e);
      assert e.client in Clients(events);
      if "" in Clients(init) {
        var i :| 0 <= i < |init| && init[i].client == "";
        assert events[i].client == "";
      }
    }
  }

  // ---- no block without five failures --------------------------------------

  function FailuresSince(events: seq<Event>, client: string, from: int): nat {
    if events == [] then 0
    else
      var e := events[|events| - 1];
      FailuresSince(events[..|events| - 1], client, from) + if e.Failure? && e.client == client && e.now >= from then 1 else 0
  }

  lemma {:induction false} SinceEarlier(events: seq<Event>, client: string, from: int, earlier: int)
    requires earlier <= from
    ensures FailuresSince(events, client, from) <= FailuresSince(events, client, earlier)
  {
    if events != [] { SinceEarlier(events[..|events| - 1], client, from, earlier); }
  }

  // The j-th event is the fifth failure of the client within five minutes.
  ghost predicate FifthFailure(events: seq<Event>, client: string, j: int) {
    && 0 <= j < |events| && events[j].Failure? && events[j].client == client
    && FailuresSince(events[..j + 1], client, events[j].now - WINDOW) >= MAX_FAILURES
  }

  ghost predicate Earned(events: seq<Event>, client: string, a: Attempt) {
    && a.failures < MAX_FAILURES
    && (a.windowStart != ZERO ==>
          events != [] && a.windowStart <= events[|events| - 1].now && a.failures <= FailuresSince(events, client, a.windowStart))
    && (a.windowStart == ZERO ==> a.failures == 0)
    && (a.blockedUntil != ZERO ==> exists j :: FifthFailure(events, client, j) && a.blockedUntil == events[j].now + BLOCK_TTL)
  }

  lemma EarnedNext(events: seq<Event>, e: Event, client: string, a: Attempt)
    requires Earned(events, client, a) && Ordered(events + [e])
    ensures Earned(events + [e], client, a)
  {
    var all := events + [e];
    assert all[..|all| - 1] == events;
    assert events != [] ==> all[|events| - 1].now <= all[|events|].now;
    if a.blockedUntil != ZERO {
      var j :| FifthFailure(events, client, j) && a.blockedUntil == events[j].now + BLOCK_TTL;
      assert all[..j + 1] == events[..j + 1];
      assert FifthFailure(all, client, j);
    }
  }

  lemma SinceNext(events: seq<Event>, e: Event, client: string, from: int)
    ensures FailuresSince(events + [e], client, from)
         == FailuresSince(events, client, from) + if e.Failure? && e.client == client && e.now >= from then 1 else 0
  {
    assert (events + [e])[..|events + [e]| - 1] == events;
  }

  lemma EarnedRecorded(events: seq<Event>, client: string, now: Instant, spared: set<string>, a: Attempt)
    requires Earned(events, client, a) && Ordered(events + [Failure(client, now, spared)])
    ensures Earned(events + [Failure(client, now, spared)], client, Recorded(a, now))
  {
    var e := Failure(client, now, spared);
    var all, j := events + [e], |events|;
    assert all[j] == e && (events != [] ==> all[j - 1] == events[j - 1]);
    SinceNext(events, e, client, now);
    if !Lapsed(a, now) {
      EarnedNext(events, e, client, a);
      SinceNext(events, e, client, a.windowStart);
      SinceEarlier(all, client, a.windowStart, now - WINDOW);
      assert all[..j + 1] == all;
      if a.failures + 1 >= MAX_FAILURES { assert FifthFailure(all, client, j); }
    }
  }

  // One step leaves an entry, drops it, or records a failure in it.
  lemma EntryAfter(t: Table, e: Event, client: string)
    ensures var a, b := Of(t, client), Of(Step(t, e), client);
      b == NO_ATTEMPT || b == a || (e.Failure? && e.client == client && b == Recorded(a, e.now))
  {}

  lemma NothingEarned(events: seq<Event>, client: string)
    ensures Earned(events, client, NO_ATTEMPT)
  {}

  lemma {:induction false} EveryEntryIsEarned(events: seq<Event>, client: string)
    requires Ordered(events)
    ensures Earned(events, client, Of(Run(events), client))
  {
    if events == [] {
      NothingEarned(events, client);
    } else {
      var init, e := events[..|events| - 1], events[|events| - 1];
      var a := Of(Run(init), client);
      EveryEntryIsEarned(init, client);
      assert init + [e] == events;
      EntryAfter(Run(init), e, client);
      NothingEarned(events, client);
      EarnedNext(init, e, client, a);
      if e.Failure? && e.client == client { EarnedRecorded(init, client, e.now, e.spared, a); }
    }
  }

  // Nobody is blocked who did not fail five times within five minutes, the
  // last time less than thirty seconds ago.
  lemma BlockedIsEarned(events: seq<Event>, client: string, now: Instant)
    requires Ordered(events) && Wait(Of(Run(events), client), now) > 0
    ensures exists j :: FifthFailure(events, client, j) && now < events[j].now + BLOCK_TTL
  {
    EveryEntryIsEarned(events, client);
    var a := Of(Run(events), client);
    var j :| FifthFailure(events, client, j) && a.blockedUntil == events[j].now + BLOCK_TTL;
  }

  // ---- clients do not disturb each other -----------------------------------

  // What the client's own events alone leave, without any cleanup.
  function Own(events: seq<Event>, client: string): Attempt {
    if events == [] then NO_ATTEMPT
    else
      var a, e := Own(events[..|events| - 1], client), events[|events| - 1];
      if e.client != client then a
      else match e
        case Failure(_, now, _) => Recorded(a, now)
        case Check(_, _, _) => a
        case Clear(_, _) => NO_ATTEMPT
  }

  predicate Alike(a: Attempt, b: Attempt, now: Instant) { a == b || (Expired(a, now) && Expired(b, now)) }

  lemma AlikeLater(a: Attempt, b: Attempt, now: Instant, later: Instant)
    requires Alike(a, b, now) && now <= later
    ensures Alike(a, b, later) && Recorded(a, later) == Recorded(b, later) && Wait(a, later) == Wait(b, later)
  {}

  lemma CleanedAlike(t: Table, keep: string, now: Instant, c: string)
    requires |t| <= MAX_ENTRIES
    ensures Alike(Of(Cleaned(t, keep, now), c), Of(t, c), now)
  {
    var live := Live(t, now);
    assert live.Keys <= t.Keys;
    SubsetSize(live.Keys, t.Keys);
  }

  lemma {:induction false} AloneStep(events: seq<Event>, e: Event, client: string, last: Instant)
    requires Alike(Of(Run(events), client), Own(events, client), last) && last <= e.now
    requires |Run(events).Keys + {e.client}| <= MAX_ENTRIES
    ensures Alike(Of(Run(events + [e]), client), Own(events + [e], client), e.now)
  {
    assert (events + [e])[..|events + [e]| - 1] == events;
    var t := Run(events);
    AlikeLater(Of(t, client), Own(events, client), last, e.now);
    match e
    case Failure(c, now, _) =>
      var t1 := t[c := Recorded(Of(t, c), now)];
      assert t1.Keys == t.Keys + {c};
      OrderlyWhen(t1, c, now);
      CleanedAlike(t1, c, now, client);
    case Check(c, now, _) =>
      SubsetSize(t.Keys, t.Keys + {c});
      OrderlyWhen(t, c, now);
      CleanedAlike(t, c, now, client);
    case Clear(c, _) =>
  }

  // While no more than 1024 clients show up, the wait told to a client is that
  // of its own failures: other clients, expiry and the order of cleanups make
  // no difference.
  lemma {:induction false} ClientsAreAlone(events: seq<Event>, client: string, now: Instant)
    requires Ordered(events) && |Clients(events)| <= MAX_ENTRIES
    requires events != [] ==> events[|events| - 1].now <= now
    ensures Alike(Of(Run(events), client), Own(events, client), now)
    ensures Wait(Of(Run(events), client), now) == Wait(Own(events, client), now)
  {
    if events != [] {
      var init, e := events[..|events| - 1], events[|events| - 1];
      assert init + [e] == events;
      assert Clients(init) <= Clients(events) by {
        forall i | 0 <= i < |init| ensures init[i].client in Clients(events) { assert events[i] == init[i]; }
      }
      SubsetSize(Clients(init), Clients(events));
      ClientsAreAlone(init, client, e.now);
      EntriesAreClients(init);
      assert e.client in Clients(events);
      SubsetSize(Run(init).Keys + {e.client}, Clients(events));
      AloneStep(init, e, client, e.now);
      AlikeLater(Of(Run(events), client), Own(events, client), e.now, now);
    }
  }

  // Five failures in a row, from an expired or missing entry and within the
  // window, block for thirty seconds; four do not.
  lemma FiveFailuresBlock(a: Attempt, t1: Instant, t2: Instant, t3: Instant, t4: Instant, t5: Instant)
    requires Expired(a, t1) && ZERO < t1 <= t2 <= t3 <= t4 <= t5 <= t1 + WINDOW
    ensures var four := Recorded(Recorded(Recorded(Recorded(a, t1), t2), t3), t4);
      Wait(four, t4) == 0 && Wait(Recorded(four, t5), t5) == BLOCK_TTL
  {}
}
