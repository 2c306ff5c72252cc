// When the split of an output into writes shows in the lines handed on: exactly
// when a finished line is longer than 2048 bytes and cutting it shows.

module LineSplits {
  import opened LineCapture
  import opened Sequences

  // The lines of s and what follows the last newline.
  function LinesOf(s: Bytes): (r: (seq<Piece>, Bytes))
    ensures |r.1| <= |s|
  {
    var k := Index(s);
    if k == |s| then ([], s)
    else
      var (more, rest) := LinesOf(s[k + 1..]);
      ([Line(s[..k])] + more, rest)
  }

  ghost predicate AllShort(lines: seq<Piece>) { forall i :: 0 <= i < |lines| ==> |lines[i].raw| <= LINE_MAX }

  lemma {:induction false} IndexIs(s: Bytes, k: nat)
    requires k <= |s| && NEWLINE !in s[..k] && (k < |s| ==> s[k] == NEWLINE)
    ensures Index(s) == k
  {
    if k > 0 {
      assert s[..k][0] == s[0] && s[1..][..k - 1] == s[..k][1..];
      IndexIs(s[1..], k - 1);
    }
  }

  lemma FirstLine(s: Bytes, k: nat)
    requires k < |s| && NEWLINE !in s[..k] && s[k] == NEWLINE
    ensures LinesOf(s) == ([Line(s[..k])] + LinesOf(s[k + 1..]).0, LinesOf(s[k + 1..]).1)
  {
    IndexIs(s, k);
  }

  lemma FirstLineBoth(a: Bytes, b: Bytes, k: nat)
    requires k < |a| && NEWLINE !in a[..k] && a[k] == NEWLINE
    requires LinesOf(a[k + 1..] + b).0 == LinesOf(a[k + 1..]).0 + LinesOf(LinesOf(a[k + 1..]).1 + b).0
    requires LinesOf(a[k + 1..] + b).1 == LinesOf(LinesOf(a[k + 1..]).1 + b).1
    ensures LinesOf(a + b).0 == LinesOf(a).0 + LinesOf(LinesOf(a).1 + b).0
    ensures LinesOf(a + b).1 == LinesOf(LinesOf(a).1 + b).1
  {
    var rest, line := a[k + 1..], Line(a[..k]);
    assert (a + b)[..k] == a[..k] && (a + b)[k + 1..] == rest + b;
    FirstLine(a + b, k);
    FirstLine(a, k);
    Associates([line], LinesOf(rest).0, LinesOf(LinesOf(rest).1 + b).0);
  }

  // The lines of a stream, from those of a first part and what that leaves.
  lemma {:induction false} LinesOfBoth(a: Bytes, b: Bytes)
    ensures LinesOf(a + b).0 == LinesOf(a).0 + LinesOf(LinesOf(a).1 + b).0
    ensures LinesOf(a + b).1 == LinesOf(LinesOf(a).1 + b).1
    decreases |a|
  {
    var k := Index(a);
    if k == |a| {
      assert [] + LinesOf(a + b).0 == LinesOf(a + b).0;
    } else {
      LinesOfBoth(a[k + 1..], b);
      FirstLineBoth(a, b, k);
    }
  }

  lemma {:induction false} RestHasNoNewline(s: Bytes)
    ensures NEWLINE !in LinesOf(s).1
    decreases |s|
  {
    var k := Index(s);
    if k < |s| { RestHasNoNewline(s[k + 1..]); } else { assert s[..k] == s; }
  }

  // ---- cutting a line ------------------------------------------------------

  // The line with its first j chunks of 2048 bytes handed on early; no more than
  // leave a byte of it.
  function CutLine(line: Bytes, j: int): seq<Piece> {
    if j <= 0 || |line| <= LINE_MAX then [Line(line)]
    else [Chunk(line[..LINE_MAX])] + CutLine(line[LINE_MAX..], j - 1)
  }

  function Cuts(lines: seq<Piece>, js: seq<int>): seq<Piece>
    requires |lines| == |js|
  {
    if lines == [] then []
    else Cuts(lines[..|lines| - 1], js[..|js| - 1]) + CutLine(lines[|lines| - 1].raw, js[|js| - 1])
  }

  function Zeros(n: nat): seq<int> { seq(n, _ => 0) }

  ghost predicate Whole(lines: seq<Piece>) { forall i :: 0 <= i < |lines| ==> lines[i].Line? }

  lemma {:induction false} LinesAreWhole(s: Bytes)
    ensures Whole(LinesOf(s).0)
    decreases |s|
  {
    var k := Index(s);
    if k < |s| { LinesAreWhole(s[k + 1..]); }
  }

  lemma CutsNext(lines: seq<Piece>, js: seq<int>, line: Piece, j: int)
    requires |lines| == |js|
    ensures Cuts(lines + [line], js + [j]) == Cuts(lines, js) + CutLine(line.raw, j)
  {
    assert (lines + [line])[..|lines|] == lines && (js + [j])[..|js|] == js;
  }

  lemma {:induction false} CutsBoth(a: seq<Piece>, js: seq<int>, b: seq<Piece>, ks: seq<int>)
    requires |a| == |js| && |b| == |ks|
    ensures Cuts(a + b, js + ks) == Cuts(a, js) + Cuts(b, ks)
  {
    if b == [] {
      assert a + b == a && js + ks == js;
    } else {
      var init, jinit, last, j := b[..|b| - 1], ks[..|ks| - 1], b[|b| - 1], ks[|ks| - 1];
      CutsBoth(a, js, init, jinit);
      InitOfConcat(a, b);
      InitOfConcat(js, ks);
      Associates(Cuts(a, js), Cuts(init, jinit), CutLine(last.raw, j));
    }
  }

  // Cutting short lines, or with no cuts, leaves the lines.
  lemma {:induction false} NoCuts(lines: seq<Piece>, js: seq<int>)
    requires |lines| == |js| && Whole(lines)
    requires forall i :: 0 <= i < |lines| ==> js[i] == 0 || |lines[i].raw| <= LINE_MAX
    ensures Cuts(lines, js) == lines
  {
    if lines != [] {
      NoCuts(lines[..|lines| - 1], js[..|js| - 1]);
      assert lines == lines[..|lines| - 1] + [lines[|lines| - 1]];
    }
  }

  // ---- what every split hands on -------------------------------------------

  lemma {:induction false} ChunksBoth(r: Bytes, b: Bytes)
    ensures Chunks(r + b).0 == Chunks(r).0 + Chunks(Chunks(r).1 + b).0
    ensures Chunks(r + b).1 == Chunks(Chunks(r).1 + b).1
  {
    if |r| <= LINE_MAX {
      assert [] + Chunks(r + b).0 == Chunks(r + b).0;
    } else {
      ChunksBoth(r[LINE_MAX..], b);
      assert (r + b)[..LINE_MAX] == r[..LINE_MAX] && (r + b)[LINE_MAX..] == r[LINE_MAX..] + b;
      Associates([Chunk(r[..LINE_MAX])], Chunks(r[LINE_MAX..]).0, Chunks(Chunks(r).1 + b).0);
    }
  }

  // Chunks of what came first and then the end of the line are a cut of it.
  lemma {:induction false} ChunksThenLine(r: Bytes, x: Bytes)
    ensures Chunks(r).0 + [Line(Chunks(r).1 + x)] == CutLine(r + x, |Chunks(r).0|)
  {
    if |r| <= LINE_MAX {
      assert [] + [Line(r + x)] == [Line(r + x)];
    } else {
      ChunksThenLine(r[LINE_MAX..], x);
      assert (r + x)[..LINE_MAX] == r[..LINE_MAX] && (r + x)[LINE_MAX..] == r[LINE_MAX..] + x;
      Associates([Chunk(r[..LINE_MAX])], Chunks(r[LINE_MAX..]).0, [Line(Chunks(r).1 + x)]);
    }
  }

  lemma {:induction false} DrainParts(s: Bytes)
    ensures Drain(s).0 == LinesOf(s).0 + Chunks(LinesOf(s).1).0 && Drain(s).1 == Chunks(LinesOf(s).1).1
    decreases |s|
  {
    var k := Index(s);
    if k == |s| {
      assert [] + Chunks(s).0 == Chunks(s).0;
    } else {
      DrainParts(s[k + 1..]);
      Associates([Line(s[..k])], LinesOf(s[k + 1..]).0, Chunks(LinesOf(s[k + 1..]).1).0);
    }
  }

  // The state holds the lines cut as js says, and the chunks of the rest.
  predicate CutInto(st: State, lines: seq<Piece>, rest: Bytes, js: seq<int>) {
    |js| == |lines| && st.pieces == Cuts(lines, js) + Chunks(rest).0 && st.pending == Chunks(rest).1
  }

  // After the output s.
  predicate CutAs(st: State, s: Bytes, js: seq<int>) { CutInto(st, LinesOf(s).0, LinesOf(s).1, js) }

  function NextCuts(rest: Bytes, js: seq<int>, b: Bytes): seq<int> {
    if Index(b) == |b| then js
    else js + ([|Chunks(rest).0|] + Zeros(|LinesOf(b[Index(b) + 1..]).0|))
  }

  // b ends a line with x and goes on with after.
  ghost predicate EndsLine(b: Bytes, x: Bytes, after: Bytes) {
    Index(b) < |b| && x == b[..Index(b)] && after == b[Index(b) + 1..]
  }

  lemma NoNewlineIn(r: Bytes, b: Bytes)
    requires NEWLINE !in r && Index(b) == |b|
    ensures LinesOf(r + b) == ([], r + b) && Drain(r + b) == Chunks(r + b)
  {
    assert b[..|b|] == b && (r + b)[..|r + b|] == r + b;
    IndexIs(r + b, |r + b|);
  }

  lemma FirstDrained(r: Bytes, b: Bytes, x: Bytes, after: Bytes)
    requires NEWLINE !in r && EndsLine(b, x, after)
    ensures LinesOf(r + b) == ([Line(r + x)] + LinesOf(after).0, LinesOf(after).1)
    ensures Drain(r + b) == ([Line(r + x)] + Drain(after).0, Drain(after).1)
  {
    var s, k := r + b, |r| + Index(b);
    assert s[..k] == r + x && s[k + 1..] == after;
    IndexIs(s, k);
  }

  lemma {:induction false} ChunksAreClean(s: Bytes)
    requires NEWLINE !in s
    ensures NEWLINE !in Chunks(s).1
  {
    if |s| > LINE_MAX { ChunksAreClean(s[LINE_MAX..]); }
  }

  lemma WriteWithoutNewline(st: State, lines: seq<Piece>, r: Bytes, js: seq<int>, b: Bytes)
    requires CutInto(st, lines, r, js) && NEWLINE !in r && Index(b) == |b|
    ensures CutInto(Written(st, b), lines + LinesOf(r + b).0, LinesOf(r + b).1, js)
  {
    ChunksAreClean(r);
    NoNewlineIn(r, b);
    NoNewlineIn(st.pending, b);
    ChunksBoth(r, b);
    assert lines + [] == lines;
    Associates(Cuts(lines, js), Chunks(r).0, Chunks(st.pending + b).0);
  }

  lemma CutsOfNew(line: Bytes, j: int, more: seq<Piece>)
    requires Whole(more)
    ensures Cuts([Line(line)] + more, [j] + Zeros(|more|)) == CutLine(line, j) + more
  {
    CutsBoth([Line(line)], [j], more, Zeros(|more|));
    NoCuts(more, Zeros(|more|));
    CutsNext([], [], Line(line), j);
    assert [] + [Line(line)] == [Line(line)] && [] + [j] == [j] && [] + CutLine(line, j) == CutLine(line, j);
  }

  lemma CutsNow(lines: seq<Piece>, js: seq<int>, line: Bytes, j: int, more: seq<Piece>)
    requires |lines| == |js| && Whole(more)
    ensures Cuts(lines + ([Line(line)] + more), js + ([j] + Zeros(|more|))) == Cuts(lines, js) + (CutLine(line, j) + more)
  {
    CutsOfNew(line, j, more);
    CutsBoth(lines, js, [Line(line)] + more, [j] + Zeros(|more|));
  }

  lemma LineEnds(st: State, lines: seq<Piece>, js: seq<int>, r: Bytes, b: Bytes, x: Bytes, more: seq<Piece>, rest: Bytes)
    requires CutInto(st, lines, r, js) && Whole(more)
    requires Drain(st.pending + b) == ([Line(st.pending + x)] + (more + Chunks(rest).0), Chunks(rest).1)
    ensures CutInto(Written(st, b), lines + ([Line(r + x)] + more), rest, js + ([|Chunks(r).0|] + Zeros(|more|)))
  {
    ChunksThenLine(r, x);
    CutsNow(lines, js, r + x, |Chunks(r).0|, more);
    Regroups(Cuts(lines, js), Chunks(r).0, [Line(st.pending + x)], more, Chunks(rest).0);
  }

  lemma WriteWithNewline(st: State, lines: seq<Piece>, r: Bytes, js: seq<int>, b: Bytes, x: Bytes, after: Bytes)
    requires CutInto(st, lines, r, js) && NEWLINE !in r && EndsLine(b, x, after)
    ensures CutInto(Written(st, b), lines + LinesOf(r + b).0, LinesOf(r + b).1, js + ([|Chunks(r).0|] + Zeros(|LinesOf(after).0|)))
  {
    ChunksAreClean(r);
    FirstDrained(r, b, x, after);
    FirstDrained(st.pending, b, x, after);
    DrainParts(after);
    LinesAreWhole(after);
    LineEnds(st, lines, js, r, b, x, LinesOf(after).0, LinesOf(after).1);
  }

  lemma WriteCuts(st: State, s: Bytes, js: seq<int>, b: Bytes)
    requires CutAs(st, s, js)
    ensures CutAs(Written(st, b), s + b, NextCuts(LinesOf(s).1, js, b))
  {
    var (lines, r) := LinesOf(s);
    RestHasNoNewline(s);
    LinesOfBoth(s, b);
    if Index(b) == |b| {
      WriteWithoutNewline(st, lines, r, js, b);
    } else {
      WriteWithNewline(st, lines, r, js, b, b[..Index(b)], b[Index(b) + 1..]);
    }
  }

  // Every split hands on the lines, each possibly cut, and the chunks of the
  // unfinished end.
  lemma {:induction false} EveryRunCuts(writes: seq<Bytes>) returns (js: seq<int>)
    ensures CutAs(Run(writes), All(writes), js)
  {
    js := [];
    if writes != [] {
      var before := EveryRunCuts(writes[..|writes| - 1]);
      WriteCuts(Run(writes[..|writes| - 1]), All(writes[..|writes| - 1]), before, writes[|writes| - 1]);
      js := NextCuts(LinesOf(All(writes[..|writes| - 1])).1, before, writes[|writes| - 1]);
    }
  }

  // With no finished line over 2048 bytes the lines are handed on, and of an
  // unfinished end the chunks.
  lemma LinesAreHandedOn(writes: seq<Bytes>)
    requires AllShort(LinesOf(All(writes)).0)
    ensures Run(writes).pieces == LinesOf(All(writes)).0 + Chunks(LinesOf(All(writes)).1).0
    ensures Run(writes).pending == Chunks(LinesOf(All(writes)).1).1
  {
    var js := EveryRunCuts(writes);
    LinesAreWhole(All(writes));
    NoCuts(LinesOf(All(writes)).0, js);
  }

  // ---- every cut comes from some split -------------------------------------

  // The i-th line of s stands between head and tail.
  ghost predicate Located(s: Bytes, i: nat, head: Bytes, tail: Bytes) {
    var lines := LinesOf(s).0;
    && i < |lines| && s == head + lines[i].raw + ([NEWLINE] + tail) && NEWLINE !in lines[i].raw
    && LinesOf(head) == (lines[..i], []) && LinesOf(tail) == (lines[i + 1..], LinesOf(s).1)
  }

  lemma LinesAfter(first: Bytes, after: Bytes)
    requires NEWLINE !in first
    ensures LinesOf(first + [NEWLINE] + after) == ([Line(first)] + LinesOf(after).0, LinesOf(after).1)
  {
    var s := first + [NEWLINE] + after;
    assert s[..|first|] == first && s[|first| + 1..] == after;
    FirstLine(s, |first|);
  }

  lemma ConsSlices<T>(x: T, s: seq<T>, i: nat)
    requires i < |s|
    ensures ([x] + s)[..i + 1] == [x] + s[..i] && ([x] + s)[i + 1] == s[i] && ([x] + s)[i + 2..] == s[i + 1..]
  {}

  lemma JoinsAfter(first: Bytes, head: Bytes, line: Bytes, tail: Bytes)
    ensures first + (head + line + tail) == first + head + line + tail
  {}

  lemma LocatedNext(first: Bytes, after: Bytes, i: nat, head: Bytes, tail: Bytes)
    requires NEWLINE !in first && Located(after, i, head, tail)
    ensures Located(first + [NEWLINE] + after, i + 1, first + [NEWLINE] + head, tail)
  {
    var lines := LinesOf(after).0;
    LinesAfter(first, after);
    LinesAfter(first, head);
    ConsSlices(Line(first), lines, i);
    JoinsAfter(first + [NEWLINE], head, lines[i].raw, [NEWLINE] + tail);
  }

  lemma HeadAndTail<T>(x: T, s: seq<T>)
    ensures ([x] + s)[..0] == [] && ([x] + s)[0] == x && ([x] + s)[1..] == s
  {}

  lemma LocatedFirst(first: Bytes, after: Bytes)
    requires NEWLINE !in first
    ensures Located(first + [NEWLINE] + after, 0, [], after)
  {
    LinesAfter(first, after);
    HeadAndTail(Line(first), LinesOf(after).0);
    Associates(first, [NEWLINE], after);
    assert [] + first == first;
  }

  lemma {:induction false} LineAt(s: Bytes, i: nat) returns (head: Bytes, tail: Bytes)
    requires i < |LinesOf(s).0|
    ensures Located(s, i, head, tail)
    decreases |s|
  {
    var k := Index(s);
    var first, after := s[..k], s[k + 1..];
    assert s == first + [NEWLINE] + after;
    LinesAfter(first, after);
    if i == 0 {
      LocatedFirst(first, after);
      head, tail := [], after;
    } else {
      head, tail := LineAt(after, i - 1);
      LocatedNext(first, after, i - 1, head, tail);
      head := first + [NEWLINE] + head;
    }
  }

  lemma {:induction false} ChunkCount(s: Bytes, j: nat)
    requires |s| == j * LINE_MAX + 1
    ensures |Chunks(s).0| == j
  {
    if j > 0 { ChunkCount(s[LINE_MAX..], j - 1); }
  }

  // The cut of one line.
  function OneCut(n: nat, i: nat, j: nat): seq<int>
    requires i < n
  {
    Zeros(i) + ([j] + Zeros(n - i - 1))
  }

  lemma RunOne(p: Bytes)
    ensures Run([p]) == Written(EMPTY, p) && All([p]) == p
  {
    assert [p][..0] == [] && [] + p == p;
  }

  lemma RunTwo(p: Bytes, q: Bytes)
    ensures Run([p, q]) == Written(Run([p]), q) && All([p, q]) == p + q
  {
    assert [p, q][..1] == [p];
    RunOne(p);
  }

  lemma StartIsUncut(p: Bytes)
    ensures CutAs(Run([p]), p, Zeros(|LinesOf(p).0|))
  {
    RunOne(p);
    assert [] + Drain(p).0 == Drain(p).0 && [] + p == p;
    DrainParts(p);
    LinesAreWhole(p);
    NoCuts(LinesOf(p).0, Zeros(|LinesOf(p).0|));
  }

  lemma EndsAt(head: Bytes, part: Bytes)
    requires NEWLINE !in part && LinesOf(head).1 == []
    ensures LinesOf(head + part) == (LinesOf(head).0, part)
  {
    LinesOfBoth(head, part);
    assert [] + part == part && part[..|part|] == part;
    IndexIs(part, |part|);
    assert LinesOf(head).0 + [] == LinesOf(head).0;
  }

  lemma TailAfter(rest: Bytes, tail: Bytes)
    requires NEWLINE !in rest
    ensures var q := rest + [NEWLINE] + tail; Index(q) == |rest| < |q| && q[Index(q) + 1..] == tail
  {
    var q := rest + [NEWLINE] + tail;
    assert q[..|rest|] == rest;
    IndexIs(q, |rest|);
  }

  lemma NextCutsAre(head: Bytes, part: Bytes, rest: Bytes, tail: Bytes, js: seq<int>)
    requires NEWLINE !in part && NEWLINE !in rest && LinesOf(head).1 == []
    ensures NextCuts(LinesOf(head + part).1, js, rest + [NEWLINE] + tail) == js + ([|Chunks(part).0|] + Zeros(|LinesOf(tail).0|))
  {
    TailAfter(rest, tail);
    EndsAt(head, part);
  }

  lemma Joins(head: Bytes, line: Bytes, m: nat, tail: Bytes)
    requires m <= |line|
    ensures head + line[..m] + (line[m..] + [NEWLINE] + tail) == head + line + ([NEWLINE] + tail)
  {
    assert line == line[..m] + line[m..];
  }

  // Writing one byte past the j-th chunk of a line, then the rest, cuts that line
  // j times and no other.
  lemma SplitCuts(s: Bytes, i: nat, j: nat) returns (writes: seq<Bytes>)
    requires i < |LinesOf(s).0| && j * LINE_MAX < |LinesOf(s).0[i].raw|
    ensures All(writes) == s && CutAs(Run(writes), s, OneCut(|LinesOf(s).0|, i, j))
  {
    var line, m := LinesOf(s).0[i].raw, j * LINE_MAX + 1;
    var head, tail := LineAt(s, i);
    var p, q := head + line[..m], line[m..] + [NEWLINE] + tail;
    Joins(head, line, m, tail);
    writes := [p, q];
    EndsAt(head, line[..m]);
    StartIsUncut(p);
    NextCutsAre(head, line[..m], line[m..], tail, Zeros(i));
    ChunkCount(line[..m], j);
    CutTwice(p, q, Zeros(i), OneCut(|LinesOf(s).0|, i, j));
  }

  lemma CutTwice(p: Bytes, q: Bytes, js: seq<int>, ks: seq<int>)
    requires CutAs(Run([p]), p, js) && NextCuts(LinesOf(p).1, js, q) == ks
    ensures All([p, q]) == p + q && CutAs(Run([p, q]), p + q, ks)
  {
    RunTwo(p, q);
    WriteCuts(Run([p]), p, js, q);
  }

  // ---- the exact conditions ------------------------------------------------

  ghost predicate SameLines(s: Bytes) {
    forall a, b :: All(a) == s && All(b) == s ==> Flushed(Run(a)).pieces == Flushed(Run(b)).pieces
  }

  lemma FlushedPieces(st: State)
    ensures Flushed(st).pieces == st.pieces + if st.pending == [] then [] else [Rest(st.pending)]
  {}

  lemma CutShows(line: Bytes)
    requires |line| > LINE_MAX
    ensures CutLine(line, 1)[0] == Chunk(line[..LINE_MAX]) && CutLine(line, 0)[0] == Line(line)
  {}

  lemma OneCutIs(head: seq<Piece>, line: Bytes, tail: seq<Piece>, j: nat)
    requires Whole(head) && Whole(tail)
    ensures Cuts(head + ([Line(line)] + tail), Zeros(|head|) + ([j] + Zeros(|tail|))) == head + (CutLine(line, j) + tail)
  {
    CutsNow(head, Zeros(|head|), line, j, tail);
    NoCuts(head, Zeros(|head|));
  }

  // The lines around the i-th one.
  ghost predicate Around(s: Bytes, i: nat, head: seq<Piece>, line: Bytes, tail: seq<Piece>) {
    && LinesOf(s).0 == head + ([Line(line)] + tail) && |head| == i
    && Whole(head) && Whole(tail)
  }

  lemma AroundLine(s: Bytes, i: nat) returns (head: seq<Piece>, line: Bytes, tail: seq<Piece>)
    requires i < |LinesOf(s).0|
    ensures Around(s, i, head, line, tail) && line == LinesOf(s).0[i].raw
  {
    var lines := LinesOf(s).0;
    LinesAreWhole(s);
    head, line, tail := lines[..i], lines[i].raw, lines[i + 1..];
    assert lines == head + ([lines[i]] + tail);
  }

  // For every output with a finished line over 2048 bytes there are two splits
  // that hand it on in different pieces.
  lemma LongLineDepends(s: Bytes, i: nat) returns (a: seq<Bytes>, b: seq<Bytes>)
    requires i < |LinesOf(s).0| && |LinesOf(s).0[i].raw| > LINE_MAX
    ensures All(a) == s && All(b) == s && Flushed(Run(a)).pieces != Flushed(Run(b)).pieces
  {
    var head, line, tail := AroundLine(s, i);
    a := SplitCuts(s, i, 0);
    b := SplitCuts(s, i, 1);
    OneCutIs(head, line, tail, 0);
    OneCutIs(head, line, tail, 1);
    FlushedPieces(Run(a));
    FlushedPieces(Run(b));
    CutShows(line);
    assert Flushed(Run(a)).pieces[i] == Line(line) && Flushed(Run(b)).pieces[i] == Chunk(line[..LINE_MAX]);
  }

  // The split does not show in the pieces if and only if every finished line has
  // at most 2048 bytes, however long the unfinished end is.
  lemma PiecesIgnoreSplitIffShort(s: Bytes)
    ensures SameLines(s) <==> AllShort(LinesOf(s).0)
  {
    if AllShort(LinesOf(s).0) {
      forall a, b | All(a) == s && All(b) == s ensures Flushed(Run(a)).pieces == Flushed(Run(b)).pieces {
        LinesAreHandedOn(a);
        LinesAreHandedOn(b);
      }
    } else {
      var i :| 0 <= i < |LinesOf(s).0| && |LinesOf(s).0[i].raw| > LINE_MAX;
      var a, b := LongLineDepends(s, i);
    }
  }

  // ---- what the callback gets ----------------------------------------------

  lemma {:induction false} EmittedBoth(trim: Bytes -> Bytes, a: seq<Piece>, b: seq<Piece>)
    ensures Emitted(trim, a + b) == Emitted(trim, a) + Emitted(trim, b)
  {
    if b == [] {
      assert a + b == a;
    } else {
      var init, last := b[..|b| - 1], b[|b| - 1];
      EmittedBoth(trim, a, init);
      InitOfConcat(a, b);
      Associates(Emitted(trim, a), Emitted(trim, init), Emit(trim, last));
    }
  }

  // What the callback gets of the line does not show j cuts.
  predicate Hides(trim: Bytes -> Bytes, line: Bytes, j: int) {
    Emitted(trim, CutLine(line, j)) == Emit(trim, Line(line))
  }

  // It does not show where the line was cut.
  ghost predicate Steady(trim: Bytes -> Bytes, line: Bytes) {
    forall j: nat :: j * LINE_MAX < |line| ==> Hides(trim, line, j)
  }

  ghost predicate AllSteady(trim: Bytes -> Bytes, lines: seq<Piece>) {
    forall i :: 0 <= i < |lines| ==> Steady(trim, lines[i].raw)
  }

  lemma EmittedOne(trim: Bytes -> Bytes, piece: Piece)
    ensures Emitted(trim, [piece]) == Emit(trim, piece)
  {
    assert [piece][..0] == [] && [] + Emit(trim, piece) == Emit(trim, piece);
  }

  // More cuts than fit are as many as fit.
  lemma {:induction false} CutsThatFit(line: Bytes, j: int) returns (fit: nat)
    ensures CutLine(line, fit) == CutLine(line, j) && (fit == 0 || fit * LINE_MAX < |line|)
  {
    fit := 0;
    if j > 0 && |line| > LINE_MAX {
      var more := CutsThatFit(line[LINE_MAX..], j - 1);
      fit := more + 1;
    }
  }

  lemma SteadyCut(trim: Bytes -> Bytes, line: Bytes, j: int)
    requires Steady(trim, line)
    ensures Hides(trim, line, j)
  {
    var fit := CutsThatFit(line, j);
    if fit > 0 { assert Hides(trim, line, fit); }
  }

  lemma {:induction false} HiddenCuts(trim: Bytes -> Bytes, lines: seq<Piece>, js: seq<int>)
    requires |lines| == |js| && Whole(lines) && forall i :: 0 <= i < |lines| ==> Hides(trim, lines[i].raw, js[i])
    ensures Emitted(trim, Cuts(lines, js)) == Emitted(trim, lines)
  {
    if lines != [] {
      var n := |lines| - 1;
      HiddenCuts(trim, lines[..n], js[..n]);
      EmittedBoth(trim, Cuts(lines[..n], js[..n]), CutLine(lines[n].raw, js[n]));
      assert lines[n] == Line(lines[n].raw) && Hides(trim, lines[n].raw, js[n]);
    }
  }

  lemma SteadyCuts(trim: Bytes -> Bytes, lines: seq<Piece>, js: seq<int>)
    requires |lines| == |js| && Whole(lines) && AllSteady(trim, lines)
    ensures Emitted(trim, Cuts(lines, js)) == Emitted(trim, lines)
  {
    forall i | 0 <= i < |lines| ensures Hides(trim, lines[i].raw, js[i]) { SteadyCut(trim, lines[i].raw, js[i]); }
    HiddenCuts(trim, lines, js);
  }

  // The pieces a run ends with, and what the callback got of them.
  lemma FlushedCut(trim: Bytes -> Bytes, st: State, s: Bytes, js: seq<int>)
    requires CutAs(st, s, js)
    ensures Emitted(trim, Flushed(st).pieces) == Emitted(trim, Cuts(LinesOf(s).0, js)) + Emitted(trim, EndOf(s))
  {
    var (lines, rest) := LinesOf(s);
    var last := if st.pending == [] then [] else [Rest(st.pending)];
    FlushedPieces(st);
    Associates(Cuts(lines, js), Chunks(rest).0, last);
    EmittedBoth(trim, Cuts(lines, js), EndOf(s));
  }

  // The pieces of the unfinished end.
  function EndOf(s: Bytes): seq<Piece> {
    var (chunks, last) := Chunks(LinesOf(s).1);
    chunks + if last == [] then [] else [Rest(last)]
  }

  ghost predicate SameEmitted(trim: Bytes -> Bytes, s: Bytes) {
    forall a, b :: All(a) == s && All(b) == s ==> Emitted(trim, Flushed(Run(a)).pieces) == Emitted(trim, Flushed(Run(b)).pieces)
  }

  lemma OneCutEmits(trim: Bytes -> Bytes, head: seq<Piece>, line: Bytes, tail: seq<Piece>, j: nat)
    requires Whole(head) && Whole(tail)
    ensures Emitted(trim, Cuts(head + ([Line(line)] + tail), Zeros(|head|) + ([j] + Zeros(|tail|))))
         == Emitted(trim, head) + (Emitted(trim, CutLine(line, j)) + Emitted(trim, tail))
  {
    OneCutIs(head, line, tail, j);
    EmittedBoth(trim, head, CutLine(line, j) + tail);
    EmittedBoth(trim, CutLine(line, j), tail);
  }

  lemma Cancels<T>(x: seq<T>, u: seq<T>, v: seq<T>, y: seq<T>, z: seq<T>)
    requires x + (u + y) + z == x + (v + y) + z
    ensures u == v
  {
    var l, r := x + (u + y) + z, x + (v + y) + z;
    assert |u| == |v|;
    assert u == l[|x|..|x| + |u|] && v == r[|x|..|x| + |v|];
  }

  // A line that shows its cuts shows them in two splits of the output.
  lemma UnsteadyDepends(trim: Bytes -> Bytes, s: Bytes, i: nat, j: nat) returns (a: seq<Bytes>, b: seq<Bytes>)
    requires i < |LinesOf(s).0| && j * LINE_MAX < |LinesOf(s).0[i].raw|
    requires !Hides(trim, LinesOf(s).0[i].raw, j)
    ensures All(a) == s && All(b) == s
    ensures Emitted(trim, Flushed(Run(a)).pieces) != Emitted(trim, Flushed(Run(b)).pieces)
  {
    var head, line, tail := AroundLine(s, i);
    a := SplitCuts(s, i, 0);
    b := SplitCuts(s, i, j);
    FlushedCut(trim, Run(a), s, OneCut(|LinesOf(s).0|, i, 0));
    FlushedCut(trim, Run(b), s, OneCut(|LinesOf(s).0|, i, j));
    OneCutEmits(trim, head, line, tail, 0);
    OneCutEmits(trim, head, line, tail, j);
    EmittedOne(trim, Line(line));
    if Emitted(trim, Flushed(Run(a)).pieces) == Emitted(trim, Flushed(Run(b)).pieces) {
      Cancels(Emitted(trim, head), Emitted(trim, CutLine(line, 0)), Emitted(trim, CutLine(line, j)),
              Emitted(trim, tail), Emitted(trim, EndOf(s)));
    }
  }

  lemma SteadyIgnoresSplit(trim: Bytes -> Bytes, s: Bytes, a: seq<Bytes>)
    requires AllSteady(trim, LinesOf(s).0) && All(a) == s
    ensures Emitted(trim, Flushed(Run(a)).pieces) == Emitted(trim, LinesOf(s).0) + Emitted(trim, EndOf(s))
  {
    var js := EveryRunCuts(a);
    FlushedCut(trim, Run(a), s, js);
    LinesAreWhole(s);
    SteadyCuts(trim, LinesOf(s).0, js);
  }

  // The split does not show in what the callback gets if and only if no finished
  // line shows its cuts.
  lemma CallbackIgnoresSplitIffSteady(trim: Bytes -> Bytes, s: Bytes)
    ensures SameEmitted(trim, s) <==> AllSteady(trim, LinesOf(s).0)
  {
    if AllSteady(trim, LinesOf(s).0) {
      forall a, b | All(a) == s && All(b) == s
        ensures Emitted(trim, Flushed(Run(a)).pieces) == Emitted(trim, Flushed(Run(b)).pieces)
      {
        SteadyIgnoresSplit(trim, s, a);
        SteadyIgnoresSplit(trim, s, b);
      }
    } else {
      var i :| 0 <= i < |LinesOf(s).0| && !Steady(trim, LinesOf(s).0[i].raw);
      var j: nat :| j * LINE_MAX < |LinesOf(s).0[i].raw| && !Hides(trim, LinesOf(s).0[i].raw, j);
      var a, b := UnsteadyDepends(trim, s, i, j);
    }
  }

  // With no finished line over 2048 bytes the callback gets the same lines however
  // the output is split.
  lemma SplitDoesNotMatter(a: seq<Bytes>, b: seq<Bytes>, trim: Bytes -> Bytes)
    requires All(a) == All(b) && AllShort(LinesOf(All(a)).0)
    ensures Emitted(trim, Flushed(Run(a)).pieces) == Emitted(trim, Flushed(Run(b)).pieces)
  {
    PiecesIgnoreSplitIffShort(All(a));
  }
}
