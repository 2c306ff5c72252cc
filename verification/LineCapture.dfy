// The writer behind a streamed command: it keeps the first 64 KiB of the output
// and hands the output on line by line, however the command splits its writes.

module LineCapture {
  import opened Sequences

  newtype Byte = x: int | 0 <= x < 256
  type Bytes = seq<Byte>

  const NEWLINE: Byte := 10
  const RETURN: Byte := 13
  const LINE_MAX: nat := 2048
  const OUTPUT_MAX: nat := 65536

  // What is handed on: a whole line, 2048 bytes of an overlong one, or the rest
  // at the end.
  datatype Piece = Line(raw: Bytes) | Chunk(raw: Bytes) | Rest(raw: Bytes)

  datatype State = State(pending: Bytes, captured: Bytes, truncate: bool, pieces: seq<Piece>)

  const EMPTY := State([], [], false, [])

  // bytes.IndexByte(s, '\n'), or the length when there is none.
  function Index(s: Bytes): (k: nat)
    ensures k <= |s| && NEWLINE !in s[..k]
    ensures k < |s| ==> s[k] == NEWLINE
  {
    if s == [] || s[0] == NEWLINE then 0
    else
      var k := Index(s[1..]) + 1;
      assert s[..k] == [s[0]] + s[1..][..k - 1];
      k
  }

  function Chunks(s: Bytes): (seq<Piece>, Bytes) {
    if |s| <= LINE_MAX then ([], s)
    else
      var (more, rest) := Chunks(s[LINE_MAX..]);
      ([Chunk(s[..LINE_MAX])] + more, rest)
  }

  // The lines of s first, then what is too long to wait for its newline.
  function Drain(s: Bytes): (seq<Piece>, Bytes) {
    var k := Index(s);
    if k == |s| then Chunks(s)
    else
      var (more, rest) := Drain(s[k + 1..]);
      ([Line(s[..k])] + more, rest)
  }

  function Written(s: State, p: Bytes): State {
    var room := if |s.captured| < OUTPUT_MAX then OUTPUT_MAX - |s.captured| else 0;
    var taken := if |p| < room then |p| else room;
    var (more, rest) := Drain(s.pending + p);
    State(rest, s.captured + p[..taken], s.truncate || |s.captured| >= OUTPUT_MAX || taken < |p|, s.pieces + more)
  }

  function Flushed(s: State): State {
    if s.pending == [] then s else s.(pending := [], pieces := s.pieces + [Rest(s.pending)])
  }

  // strings.TrimRight(line, "\r")
  function TrimReturns(s: Bytes): Bytes {
    if s != [] && s[|s| - 1] == RETURN then TrimReturns(s[..|s| - 1]) else s
  }

  lemma {:induction false} TrimReturnsEnds(s: Bytes)
    ensures var r := TrimReturns(s);
      r <= s && (r == [] || r[|r| - 1] != 13) && forall k :: |r| <= k < |s| ==> s[k] == 13
  {
    if s != [] && s[|s| - 1] == RETURN { TrimReturnsEnds(s[..|s| - 1]); }
  }

  // trim is strings.TrimSpace. Lines that are empty after it are not handed on.
  function Emit(trim: Bytes -> Bytes, piece: Piece): seq<Bytes> {
    var line := trim(if piece.Chunk? then piece.raw else TrimReturns(piece.raw));
    if line == [] then [] else [line]
  }

  function Emitted(trim: Bytes -> Bytes, pieces: seq<Piece>): seq<Bytes> {
    if pieces == [] then [] else Emitted(trim, pieces[..|pieces| - 1]) + Emit(trim, pieces[|pieces| - 1])
  }

  lemma EmittedNext(trim: Bytes -> Bytes, pieces: seq<Piece>, piece: Piece)
    ensures Emitted(trim, pieces + [piece]) == Emitted(trim, pieces) + Emit(trim, piece)
  {
    assert (pieces + [piece])[..|pieces + [piece]| - 1] == pieces;
  }

  // ---- the program ---------------------------------------------------------

  class Capture {
    var pending: Bytes
    var captured: Bytes
    var truncate: bool
    // What the callback got.
    var lines: seq<Bytes>
    ghost var pieces: seq<Piece>
    const trim: Bytes -> Bytes
    const emit: bool

    ghost function View(): State
      reads this
    {
      State(pending, captured, truncate, pieces)
    }

    ghost predicate Valid()
      reads this
    {
      lines == if emit then Emitted(trim, pieces) else []
    }

    constructor (trim: Bytes -> Bytes, emit: bool)
      ensures Valid() && View() == EMPTY && this.trim == trim && this.emit == emit
    {
      pending, captured, truncate, lines, pieces := [], [], false, [], [];
      this.trim, this.emit := trim, emit;
    }

    method EmitLine(line: Bytes, ghost piece: Piece)
      requires Valid() && line == if piece.Chunk? then piece.raw else TrimReturns(piece.raw)
      modifies this`lines, this`pieces
      ensures Valid() && pieces == old(pieces) + [piece]
    {
      EmittedNext(trim, pieces, piece);
      pieces := pieces + [piece];
      if !emit { return; }
      var trimmed := trim(line);
      if trimmed != [] { lines := lines + [trimmed]; }
    }

    method EmitLines()
      requires Valid()
      modifies this`pending, this`lines, this`pieces
      ensures Valid() && NEWLINE !in pending
      ensures pieces + Drain(pending).0 == old(pieces) + Drain(old(pending)).0 && Drain(pending).1 == Drain(old(pending)).1
    {
      while true
        invariant Valid()
        invariant pieces + Drain(pending).0 == old(pieces) + Drain(old(pending)).0
        invariant Drain(pending).1 == Drain(old(pending)).1
        decreases |pending|
      {
        var index := Index(pending);
        if index == |pending| {
          assert pending[..index] == pending;
          break;
        }
        ghost var line := Line(pending[..index]);
        assert pieces + Drain(pending).0 == pieces + [line] + Drain(pending[index + 1..]).0;
        var raw := pending[..index];
        pending := pending[index + 1..];
        EmitLine(TrimReturns(raw), line);
      }
    }

    method EmitChunks()
      requires Valid()
      modifies this`pending, this`lines, this`pieces
      ensures Valid() && pieces == old(pieces) + Chunks(old(pending)).0 && pending == Chunks(old(pending)).1
    {
      while |pending| > LINE_MAX
        invariant Valid()
        invariant pieces + Chunks(pending).0 == old(pieces) + Chunks(old(pending)).0
        invariant Chunks(pending).1 == Chunks(old(pending)).1
        decreases |pending|
      {
        ghost var chunk := Chunk(pending[..LINE_MAX]);
        assert pieces + Chunks(pending).0 == pieces + [chunk] + Chunks(pending[LINE_MAX..]).0;
        var line := pending[..LINE_MAX];
        pending := pending[LINE_MAX..];
        EmitLine(line, chunk);
      }
      assert pieces == pieces + [];
    }

    method Write(p: Bytes) returns (n: nat)
      requires Valid()
      modifies this
      ensures Valid() && n == |p| && View() == Written(old(View()), p)
      ensures captured == old(captured) + if |old(captured)| + |p| <= 65_536 then p
                                          else if |old(captured)| < 65_536 then p[..65_536 - |old(captured)|] else []
      ensures truncate <==> old(truncate) || |old(captured)| + |p| > 65_536 || |old(captured)| == 65_536
      ensures 10 !in pending && |pending| <= 2048
      // What is handed on are lines without a newline, and chunks of 2048 bytes.
      ensures old(pieces) <= pieces && Joined(pieces) + pending == Joined(old(pieces)) + old(pending) + p
      ensures forall k :: |old(pieces)| <= k < |pieces| ==>
        !pieces[k].Rest? && (pieces[k].Line? ==> 10 !in pieces[k].raw) && (pieces[k].Chunk? ==> |pieces[k].raw| == 2048)
    {
      WrittenKeeps(View(), p);
      PiecesAre(pending + p);
      if |captured| < OUTPUT_MAX {
        var remaining := OUTPUT_MAX - |captured|;
        if remaining > |p| { remaining := |p|; }
        captured := captured + p[..remaining];
        if remaining < |p| { truncate := true; }
      } else {
        truncate := true;
      }
      pending := pending + p;
      EmitLines();
      assert Index(pending) == |pending|;
      EmitChunks();
      n := |p|;
    }

    method Flush()
      requires Valid()
      modifies this
      ensures Valid() && View() == Flushed(old(View()))
      ensures pending == [] && captured == old(captured) && truncate == old(truncate)
      ensures pieces == old(pieces) + if old(pending) == [] then [] else [Rest(old(pending))]
    {
      if |pending| > 0 {
        EmitLine(TrimReturns(pending), Rest(pending));
        pending := [];
      }
    }
  }

  // ---- any split of the output into writes ---------------------------------

  function Run(writes: seq<Bytes>): State {
    if writes == [] then EMPTY else Written(Run(writes[..|writes| - 1]), writes[|writes| - 1])
  }

  function All(writes: seq<Bytes>): Bytes {
    if writes == [] then [] else All(writes[..|writes| - 1]) + writes[|writes| - 1]
  }

  // ---- the captured text ---------------------------------------------------

  function Prefix(s: Bytes): Bytes { if |s| <= OUTPUT_MAX then s else s[..OUTPUT_MAX] }

  // The captured text is the first 64 KiB of the output.
  lemma {:induction false} CapturedIsPrefix(writes: seq<Bytes>)
    ensures Run(writes).captured == Prefix(All(writes))
  {
    if writes != [] { CapturedIsPrefix(writes[..|writes| - 1]); }
  }

  // An empty write at exactly the limit.
  ghost predicate EmptyAtLimit(writes: seq<Bytes>) {
    exists i :: 0 <= i < |writes| && writes[i] == [] && |All(writes[..i])| == OUTPUT_MAX
  }

  // The output is marked truncated when more than 64 KiB were written, and also
  // when an empty write finds the buffer exactly full.
  lemma {:induction false} TruncatedExactly(writes: seq<Bytes>)
    ensures Run(writes).truncate <==> |All(writes)| > OUTPUT_MAX || EmptyAtLimit(writes)
  {
    if writes != [] {
      var init, last := writes[..|writes| - 1], |writes| - 1;
      TruncatedExactly(init);
      CapturedIsPrefix(init);
      forall i | 0 <= i <= |init| ensures init[..i] == writes[..i] {}
      assert EmptyAtLimit(writes) <==> EmptyAtLimit(init) || (writes[last] == [] && |All(writes[..last])| == OUTPUT_MAX) by {
        if EmptyAtLimit(writes) {
          var i :| 0 <= i < |writes| && writes[i] == [] && |All(writes[..i])| == OUTPUT_MAX;
          assert i < |init| ==> init[i] == writes[i];
        }
        if EmptyAtLimit(init) {
          var i :| 0 <= i < |init| && init[i] == [] && |All(init[..i])| == OUTPUT_MAX;
          assert writes[i] == [];
        }
      }
    }
  }

  // A full buffer is not marked until an empty write comes.
  lemma EmptyWriteTruncates(full: Bytes)
    requires |full| == OUTPUT_MAX
    ensures All([full]) == All([full, []]) == full
    ensures !Run([full]).truncate && Run([full, []]).truncate
  {
    assert [full][..0] == [] && [full, []][..1] == [full];
    assert All([full]) == full;
  }

  // ---- nothing is lost -----------------------------------------------------

  function Whole(piece: Piece): Bytes { piece.raw + if piece.Line? then [NEWLINE] else [] }

  function Joined(pieces: seq<Piece>): Bytes {
    if pieces == [] then [] else Joined(pieces[..|pieces| - 1]) + Whole(pieces[|pieces| - 1])
  }

  lemma {:induction false} JoinedBoth(a: seq<Piece>, b: seq<Piece>)
    ensures Joined(a + b) == Joined(a) + Joined(b)
  {
    if b == [] {
      assert a + b == a;
    } else {
      var init, last := b[..|b| - 1], b[|b| - 1];
      JoinedBoth(a, init);
      InitOfConcat(a, b);
      Associates(Joined(a), Joined(init), Whole(last));
    }
  }

  lemma JoinedOne(piece: Piece)
    ensures Joined([piece]) == Whole(piece)
  {
    assert [piece][..0] == [];
  }

  lemma {:induction false} ChunksKeep(s: Bytes)
    ensures Joined(Chunks(s).0) + Chunks(s).1 == s && |Chunks(s).1| <= LINE_MAX
  {
    if |s| > LINE_MAX {
      ChunksKeep(s[LINE_MAX..]);
      JoinedOne(Chunk(s[..LINE_MAX]));
      JoinedBoth([Chunk(s[..LINE_MAX])], Chunks(s[LINE_MAX..]).0);
    }
  }

  lemma {:induction false} DrainKeeps(s: Bytes)
    ensures Joined(Drain(s).0) + Drain(s).1 == s && |Drain(s).1| <= LINE_MAX && NEWLINE !in Drain(s).1
    decreases |s|
  {
    var k := Index(s);
    if k == |s| {
      ChunksKeep(s);
      assert s[..k] == s;
      SuffixOf(Joined(Chunks(s).0), Chunks(s).1, s);
    } else {
      DrainKeeps(s[k + 1..]);
      LineKeeps(s, k, Drain(s[k + 1..]).0, Drain(s[k + 1..]).1);
    }
  }

  lemma {:induction false} ChunksAre(s: Bytes)
    ensures forall k :: 0 <= k < |Chunks(s).0| ==> Chunks(s).0[k].Chunk? && |Chunks(s).0[k].raw| == 2048
  {
    if |s| > LINE_MAX { ChunksAre(s[LINE_MAX..]); }
  }

  lemma {:induction false} PiecesAre(s: Bytes)
    ensures forall k :: 0 <= k < |Drain(s).0| ==>
      var piece := Drain(s).0[k];
      !piece.Rest? && (piece.Line? ==> 10 !in piece.raw) && (piece.Chunk? ==> |piece.raw| == 2048)
    decreases |s|
  {
    if Index(s) == |s| { ChunksAre(s); } else { PiecesAre(s[Index(s) + 1..]); }
  }

  lemma LineKeeps(s: Bytes, k: nat, more: seq<Piece>, rest: Bytes)
    requires k < |s| && s[k] == NEWLINE && Joined(more) + rest == s[k + 1..]
    ensures Joined([Line(s[..k])] + more) + rest == s
  {
    JoinedOne(Line(s[..k]));
    JoinedBoth([Line(s[..k])], more);
    assert Joined([Line(s[..k])] + more) + rest == s[..k] + [NEWLINE] + (Joined(more) + rest);
    assert s == s[..k] + [NEWLINE] + s[k + 1..];
  }

  lemma SuffixOf(a: Bytes, b: Bytes, s: Bytes)
    requires a + b == s
    ensures forall x :: x in b ==> x in s
  {
    forall x | x in b ensures x in s {
      var i :| 0 <= i < |b| && b[i] == x;
      assert s[|a| + i] == x;
    }
  }

  lemma WrittenKeeps(s: State, p: Bytes)
    ensures var t := Written(s, p);
      Joined(t.pieces) + t.pending == Joined(s.pieces) + s.pending + p && NEWLINE !in t.pending && |t.pending| <= LINE_MAX
  {
    var (more, rest) := Drain(s.pending + p);
    DrainKeeps(s.pending + p);
    JoinedBoth(s.pieces, more);
    Associates(Joined(s.pieces), Joined(more), rest);
    Associates(Joined(s.pieces), s.pending, p);
  }

  // What was handed on, its newlines and what is pending make up the output;
  // the pending part has no newline and at most 2048 bytes.
  lemma {:induction false} NothingIsLost(writes: seq<Bytes>)
    ensures var s := Run(writes);
      Joined(s.pieces) + s.pending == All(writes) && NEWLINE !in s.pending && |s.pending| <= LINE_MAX
  {
    if writes != [] {
      NothingIsLost(writes[..|writes| - 1]);
      WrittenKeeps(Run(writes[..|writes| - 1]), writes[|writes| - 1]);
    }
  }
}
