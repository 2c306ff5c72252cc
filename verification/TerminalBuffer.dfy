// The output buffer of a terminal session: the newest 256 KiB of an unbounded
// stream, addressed by absolute cursors.

module TerminalBuffer {
  type Byte = bv8

  const BUFFER_LIMIT: nat := 0x4_0000
  const READ_LIMIT: nat := 0x1_0000

  // The oldest position of the stream that is still buffered.
  function Base(total: nat): nat { if total > BUFFER_LIMIT then total - BUFFER_LIMIT else 0 }

  datatype Poll = Poll(data: seq<Byte>, next: nat, dropped: bool)

  // What a client at a cursor is sent, in terms of the whole stream.
  function PollAt(stream: seq<Byte>, cursor: nat): Poll {
    var base := Base(|stream|);
    var from := if cursor < base then base else if cursor > |stream| then |stream| else cursor;
    var to := if |stream| - from > READ_LIMIT then from + READ_LIMIT else |stream|;
    Poll(stream[from..to], to, cursor < base)
  }

  lemma SuffixGrows(stream: seq<Byte>, data: seq<Byte>, from: nat)
    requires from <= |stream|
    ensures (stream + data)[from..] == stream[from..] + data
  {}

  lemma SliceOfSuffix(stream: seq<Byte>, base: nat, lo: nat, hi: nat)
    requires lo <= hi && base + hi <= |stream|
    ensures stream[base..][lo..hi] == stream[base + lo..base + hi]
  {}

  lemma SliceOfPrefix(all: seq<Byte>, len: nat, lo: nat, hi: nat)
    requires lo <= hi <= len <= |all|
    ensures all[..len][lo..hi] == all[lo..hi]
  {}

  lemma Appended(all: seq<Byte>, kept: seq<Byte>, data: seq<Byte>)
    requires |all| >= |kept| + |data|
    requires forall k :: 0 <= k < |kept| ==> all[k] == kept[k]
    requires forall k :: 0 <= k < |data| ==> all[|kept| + k] == data[k]
    ensures all[..|kept| + |data|] == kept + data
  {
    forall k | 0 <= k < |kept| + |data| ensures all[k] == (kept + data)[k] {
      if k >= |kept| { assert all[|kept| + (k - |kept|)] == data[k - |kept|]; }
    }
  }

  lemma Shifted(all: seq<Byte>, was: seq<Byte>, drop: nat, stream: seq<Byte>, base: nat)
    requires drop <= |was| <= |all| && base <= |stream| && was == stream[base..]
    requires forall k :: 0 <= k < |was| - drop ==> all[k] == was[drop + k]
    ensures all[..|was| - drop] == stream[base + drop..]
  {
    forall k | 0 <= k < |was| - drop ensures all[k] == stream[base + drop..][k] {
      assert was[drop + k] == stream[base + (drop + k)];
    }
  }

  class Session {
    var output: array<Byte>
    var len: nat
    var baseCursor: nat
    var endCursor: nat
    ghost var stream: seq<Byte>

    ghost predicate Valid()
      reads this, output
    {
      && endCursor == |stream|
      && baseCursor == Base(|stream|)
      && len == endCursor - baseCursor
      && len <= output.Length
      && output[..len] == stream[baseCursor..]
    }

    constructor ()
      ensures Valid() && fresh(output) && stream == []
    {
      output := new Byte[0];
      len, baseCursor, endCursor, stream := 0, 0, 0, [];
    }

    // The append of a Go slice: a new backing array when the old one is full.
    method Reserve(extra: nat)
      modifies this`output
      requires len <= output.Length
      ensures output.Length >= len + extra
      ensures output[..len] == old(output[..len])
      ensures output == old(output) || fresh(output)
    {
      if len + extra > output.Length {
        var grown := new Byte[2 * (len + extra)];
        for i := 0 to len
          invariant grown[..i] == output[..i]
          modifies grown
        {
          grown[i] := output[i];
        }
        output := grown;
      }
    }

    // output = append(output, data...), before the new length counts.
    method Append(data: seq<Byte>)
      requires len <= output.Length
      modifies this`output, output
      ensures output.Length >= len + |data|
      ensures output[..len + |data|] == old(output[..len]) + data
      ensures output == old(output) || fresh(output)
    {
      ghost var kept := output[..len];
      Reserve(|data|);
      assert forall k :: 0 <= k < len ==> output[k] == output[..len][k] == kept[k];
      for i := 0 to |data|
        invariant forall k :: 0 <= k < len ==> output[k] == kept[k]
        invariant forall k :: 0 <= k < i ==> output[len + k] == data[k]
        modifies output
      {
        output[len + i] := data[i];
      }
      Appended(output[..], kept, data);
    }

    method AppendOutput(data: seq<Byte>)
      requires Valid()
      modifies this, output
      ensures Valid() && stream == old(stream) + data
      ensures endCursor == old(endCursor) + |data| == |stream|
      ensures baseCursor == if |stream| > 262_144 then |stream| - 262_144 else 0
      ensures len <= output.Length && baseCursor <= |stream| && output[..len] == stream[baseCursor..]
      ensures output == old(output) || fresh(output)
    {
      Append(data);
      SuffixGrows(stream, data, baseCursor);
      len := len + |data|;
      endCursor := endCursor + |data|;
      stream := stream + data;
      if len > BUFFER_LIMIT {
        Shift(len - BUFFER_LIMIT);
      }
    }

    // copy(s.output, s.output[drop:]) and the shorter slice.
    method Shift(drop: nat)
      requires drop <= len <= output.Length && len == endCursor - baseCursor
      requires endCursor == |stream| && baseCursor <= endCursor && output[..len] == stream[baseCursor..]
      modifies this`len, this`baseCursor, output
      ensures len == old(len) - drop && baseCursor == old(baseCursor) + drop
      ensures output[..len] == stream[baseCursor..]
    {
      ghost var was := output[..len];
      for i := 0 to len - drop
        invariant forall k :: 0 <= k < i ==> output[k] == was[drop + k]
        invariant forall k :: i <= k < len ==> output[k] == was[k]
        modifies output
      {
        output[i] := output[drop + i];
      }
      Shifted(output[..], was, drop, stream, baseCursor);
      len := len - drop;
      baseCursor := baseCursor + drop;
    }

    method ReadOutput(at: nat) returns (data: seq<Byte>, next: nat, dropped: bool)
      requires Valid()
      ensures Poll(data, next, dropped) == PollAt(stream, at)
      ensures var base := if |stream| > 262_144 then |stream| - 262_144 else 0;
        var from := if at < base then base else if at > |stream| then |stream| else at;
        && next == (if |stream| - from > 65_536 then from + 65_536 else |stream|)
        && data == stream[from..next] && (dropped <==> at < base)
    {
      var cursor := at;
      dropped := false;
      if cursor < baseCursor {
        cursor := baseCursor;
        dropped := true;
      }
      if cursor > endCursor { cursor := endCursor; }
      var start := cursor - baseCursor;
      var available := len - start;
      if available > READ_LIMIT { available := READ_LIMIT; }
      data := output[start..start + available];
      SliceOfPrefix(output[..], len, start, start + available);
      SliceOfSuffix(stream, baseCursor, start, start + available);
      next := cursor + available;
    }
  }

  // ---- a polling client ----------------------------------------------------

  datatype Event = Produce(data: seq<Byte>) | Ask

  // A client starts at 0 and feeds back the returned cursor. It keeps what it
  // was sent and how much each dropped flag skipped.
  datatype Piece = Got(data: seq<Byte>) | Lost(count: nat)
  datatype System = System(stream: seq<Byte>, cursor: nat, pieces: seq<Piece>)

  const START := System([], 0, [])

  function Step(s: System, e: Event): System {
    match e
    case Produce(data) => s.(stream := s.stream + data)
    case Ask =>
      var p := PollAt(s.stream, s.cursor);
      var lost := if p.dropped then [Lost(p.next - |p.data| - s.cursor)] else [];
      s.(cursor := p.next, pieces := s.pieces + lost + [Got(p.data)])
  }

  function Run(s: System, events: seq<Event>): System {
    if events == [] then s else Step(Run(s, events[..|events| - 1]), events[|events| - 1])
  }

  // The pieces are the stream up to hi, in order: each byte is in exactly one
  // piece, and a piece that was sent holds the bytes of its place.
  ghost predicate Tiles(pieces: seq<Piece>, stream: seq<Byte>, hi: nat)
  {
    if pieces == [] then hi == 0
    else
      var init, last := pieces[..|pieces| - 1], pieces[|pieces| - 1];
      match last
      case Got(d) => |d| <= hi <= |stream| && d == stream[hi - |d|..hi] && Tiles(init, stream, hi - |d|)
      case Lost(n) => n <= hi && Tiles(init, stream, hi - n)
  }

  lemma {:induction false} TilesGrows(pieces: seq<Piece>, stream: seq<Byte>, more: seq<Byte>, hi: nat)
    requires Tiles(pieces, stream, hi)
    ensures Tiles(pieces, stream + more, hi)
  {
    if pieces != [] {
      var init := pieces[..|pieces| - 1];
      match pieces[|pieces| - 1]
      case Got(d) =>
        assert (stream + more)[hi - |d|..hi] == stream[hi - |d|..hi];
        TilesGrows(init, stream, more, hi - |d|);
      case Lost(n) => TilesGrows(init, stream, more, hi - n);
    }
  }

  ghost predicate Reassembled(s: System) { s.cursor <= |s.stream| && Tiles(s.pieces, s.stream, s.cursor) }

  lemma AskKeeps(s: System)
    requires Reassembled(s)
    ensures Reassembled(Step(s, Ask))
  {
    var p := PollAt(s.stream, s.cursor);
    var mid := s.pieces + if p.dropped then [Lost(p.next - |p.data| - s.cursor)] else [];
    assert Tiles(mid, s.stream, p.next - |p.data|) by {
      if p.dropped {
        assert mid[..|mid| - 1] == s.pieces;
      } else {
        assert mid == s.pieces;
      }
    }
    var all := mid + [Got(p.data)];
    assert all[..|all| - 1] == mid;
  }

  // Polling reassembles the stream under every interleaving of output and
  // polls: nothing twice, nothing out of place, and nothing missing but what a
  // dropped flag announced.
  lemma {:induction false} PollingReassembles(events: seq<Event>)
    ensures Reassembled(Run(START, events))
  {
    if events != [] {
      PollingReassembles(events[..|events| - 1]);
      var s := Run(START, events[..|events| - 1]);
      match events[|events| - 1]
      case Produce(data) => TilesGrows(s.pieces, s.stream, data, s.cursor);
      case Ask => AskKeeps(s);
    }
  }

  function Received(pieces: seq<Piece>): seq<Byte> {
    if pieces == [] then []
    else Received(pieces[..|pieces| - 1]) + match pieces[|pieces| - 1] case Got(d) => d case Lost(_) => []
  }

  function LostBytes(pieces: seq<Piece>): nat {
    if pieces == [] then 0
    else LostBytes(pieces[..|pieces| - 1]) + match pieces[|pieces| - 1] case Got(_) => 0 case Lost(n) => n
  }

  // What is known after a piece that was sent.
  lemma OneMoreGot(stream: seq<Byte>, received: seq<Byte>, d: seq<Byte>, hi: nat)
    requires |d| <= hi <= |stream| && |received| == hi - |d| && received <= stream && d == stream[hi - |d|..hi]
    ensures received + d <= stream
  {
    forall k | 0 <= k < hi ensures (received + d)[k] == stream[k] {
      if k >= |received| { assert (received + d)[k] == d[k - |received|]; }
    }
  }

  // No byte is counted twice, and without a loss the client has the stream.
  lemma {:induction false} TilesCount(pieces: seq<Piece>, stream: seq<Byte>, hi: nat)
    requires Tiles(pieces, stream, hi) && hi <= |stream|
    ensures |Received(pieces)| + LostBytes(pieces) == hi
    ensures LostBytes(pieces) == 0 ==> Received(pieces) <= stream
  {
    if pieces != [] {
      var init := pieces[..|pieces| - 1];
      var received := Received(init);
      match pieces[|pieces| - 1]
      case Got(d) =>
        TilesCount(init, stream, hi - |d|);
        assert Received(pieces) == received + d && LostBytes(pieces) == LostBytes(init);
        if LostBytes(init) == 0 { OneMoreGot(stream, received, d, hi); }
      case Lost(n) =>
        TilesCount(init, stream, hi - n);
        assert Received(pieces) == received;
    }
  }

  lemma ClientAccounting(events: seq<Event>)
    ensures var s := Run(START, events);
      && |Received(s.pieces)| + LostBytes(s.pieces) == s.cursor <= |s.stream|
      && (LostBytes(s.pieces) == 0 ==> Received(s.pieces) == s.stream[..s.cursor])
  {
    PollingReassembles(events);
    var s := Run(START, events);
    TilesCount(s.pieces, s.stream, s.cursor);
  }

  // A poll behind the end always advances; a client that falls behind by no
  // more than the buffer loses nothing.
  lemma PollAdvances(stream: seq<Byte>, cursor: nat)
    requires cursor <= |stream|
    ensures var p := PollAt(stream, cursor);
      && (cursor < |stream| ==> p.next > cursor && p.data != [])
      && (p.dropped <==> |stream| - cursor > BUFFER_LIMIT)
      && p.next <= |stream|
  {
    var p := PollAt(stream, cursor);
    assert |p.data| == p.next - (if cursor < Base(|stream|) then Base(|stream|) else cursor);
  }

  function Polls(n: nat): seq<Event> { seq(n, _ => Ask) }

  lemma OneMorePoll(s: System, n: nat)
    ensures Run(s, Polls(n + 1)) == Step(Run(s, Polls(n)), Ask)
  {
    assert Polls(n + 1)[..n] == Polls(n);
  }

  // How far n polls get a client.
  predicate Reaches(s: System, n: nat) {
    s.cursor <= |s.stream| && (n > 0 ==> s.cursor == |s.stream| || s.cursor >= Base(|s.stream|) + n * READ_LIMIT)
  }

  lemma PollReaches(s: System, n: nat)
    requires Reaches(s, n)
    ensures Step(s, Ask).stream == s.stream && Reaches(Step(s, Ask), n + 1)
  {}

  lemma {:induction false} PollsReach(s: System, n: nat)
    requires s.cursor <= |s.stream|
    ensures Run(s, Polls(n)).stream == s.stream && Reaches(Run(s, Polls(n)), n)
  {
    if n > 0 {
      PollsReach(s, n - 1);
      OneMorePoll(s, n - 1);
      PollReaches(Run(s, Polls(n - 1)), n - 1);
    }
  }

  // A quiet stream is drained by four polls, whatever the cursor.
  lemma FourPollsDrain(s: System)
    requires s.cursor <= |s.stream|
    ensures Run(s, Polls(4)).cursor == |s.stream|
  {
    PollsReach(s, 4);
  }
}
