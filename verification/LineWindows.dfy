// When the callback can tell how a long line was cut.

module LineWindows {
  import opened Sequences
  import opened LineCapture
  import opened LineSplits

  // ---- when a line shows its cuts ------------------------------------------

  // What is handed on of a piece, if it is not empty.
  function TextOf(trim: Bytes -> Bytes, piece: Piece): Bytes {
    trim(if piece.Chunk? then piece.raw else TrimReturns(piece.raw))
  }

  // One piece tells the whole text, the others are blank.
  ghost predicate OneTells(trim: Bytes -> Bytes, pieces: seq<Piece>, text: Bytes) {
    exists k :: 0 <= k < |pieces| && TextOf(trim, pieces[k]) == text && AllBlankBut(trim, pieces, k)
  }

  ghost predicate AllBlankBut(trim: Bytes -> Bytes, pieces: seq<Piece>, k: int) {
    forall i :: 0 <= i < |pieces| && i != k ==> TextOf(trim, pieces[i]) == []
  }

  lemma {:induction false} NothingTold(trim: Bytes -> Bytes, pieces: seq<Piece>)
    ensures Emitted(trim, pieces) == [] <==> AllBlankBut(trim, pieces, -1)
  {
    if pieces != [] {
      var init, n := pieces[..|pieces| - 1], |pieces| - 1;
      NothingTold(trim, init);
      assert forall i :: 0 <= i < n ==> init[i] == pieces[i];
      assert AllBlankBut(trim, pieces, -1) <==> AllBlankBut(trim, init, -1) && TextOf(trim, pieces[n]) == [];
    }
  }

  lemma BlankLast(trim: Bytes -> Bytes, init: seq<Piece>, last: Piece, text: Bytes)
    requires TextOf(trim, last) == [] && text != []
    ensures OneTells(trim, init + [last], text) <==> OneTells(trim, init, text)
  {
    var pieces := init + [last];
    if OneTells(trim, init, text) {
      var k :| 0 <= k < |init| && TextOf(trim, init[k]) == text && AllBlankBut(trim, init, k);
      assert pieces[k] == init[k] && AllBlankBut(trim, pieces, k);
    }
    if OneTells(trim, pieces, text) {
      var k :| 0 <= k < |pieces| && TextOf(trim, pieces[k]) == text && AllBlankBut(trim, pieces, k);
      assert k < |init| && forall i :: 0 <= i < |init| ==> init[i] == pieces[i];
      assert AllBlankBut(trim, init, k);
    }
  }

  lemma LastTold(trim: Bytes -> Bytes, init: seq<Piece>, last: Piece, text: Bytes)
    requires TextOf(trim, last) != [] && text != []
    ensures OneTells(trim, init + [last], text) <==> TextOf(trim, last) == text && AllBlankBut(trim, init, -1)
  {
    var pieces := init + [last];
    assert pieces[|init|] == last && forall i :: 0 <= i < |init| ==> pieces[i] == init[i];
    if TextOf(trim, last) == text && AllBlankBut(trim, init, -1) { assert AllBlankBut(trim, pieces, |init|); }
  }

  lemma JoinsToOne(a: seq<Bytes>, last: Bytes, text: Bytes)
    ensures a + [last] == [text] <==> a == [] && last == text
  {
    if a + [last] == [text] { assert |a + [last]| == 1 && (a + [last])[0] == text; }
  }

  lemma {:induction false} OneTold(trim: Bytes -> Bytes, pieces: seq<Piece>, text: Bytes)
    requires text != []
    ensures Emitted(trim, pieces) == [text] <==> OneTells(trim, pieces, text)
  {
    if pieces != [] {
      var init, last := pieces[..|pieces| - 1], pieces[|pieces| - 1];
      assert pieces == init + [last];
      if TextOf(trim, last) == [] {
        OneTold(trim, init, text);
        BlankLast(trim, init, last, text);
      } else {
        NothingTold(trim, init);
        LastTold(trim, init, last, text);
        JoinsToOne(Emitted(trim, init), TextOf(trim, last), text);
      }
    }
  }

  // For any trimming: a cut does not show if and only if all pieces but one are
  // blank and that one trims like the line.
  lemma HidesIffOneTells(trim: Bytes -> Bytes, line: Bytes, j: int)
    ensures Hides(trim, line, j) <==> OneTells(trim, CutLine(line, j), TextOf(trim, Line(line)))
  {
    var pieces, text := CutLine(line, j), TextOf(trim, Line(line));
    if text == [] {
      NothingTold(trim, pieces);
      BlankTells(trim, pieces);
    } else {
      OneTold(trim, pieces, text);
    }
  }

  lemma BlankTells(trim: Bytes -> Bytes, pieces: seq<Piece>)
    requires pieces != []
    ensures OneTells(trim, pieces, []) <==> AllBlankBut(trim, pieces, -1)
  {
    if AllBlankBut(trim, pieces, -1) {
      var first := TextOf(trim, pieces[0]);
      assert first == [] && AllBlankBut(trim, pieces, 0);
    }
  }

  // ---- white space of single bytes -----------------------------------------

  predicate Blank(space: Byte -> bool, s: Bytes) { forall i :: 0 <= i < |s| ==> space(s[i]) }

  predicate StripsToNothing(trim: Bytes -> Bytes, space: Byte -> bool, s: Bytes) { trim(s) == [] <==> Blank(space, s) }

  predicate StripsPair(trim: Bytes -> Bytes, space: Byte -> bool, a: Bytes, b: Bytes) {
    && (Blank(space, a) ==> trim(a + b) == trim(b))
    && (Blank(space, b) ==> trim(a + b) == trim(a))
  }

  // What trimming white space at both ends does.
  ghost predicate Strips(trim: Bytes -> Bytes, space: Byte -> bool) {
    && space(RETURN)
    && (forall s :: StripsToNothing(trim, space, s))
    && (forall a, b :: StripsPair(trim, space, a, b))
  }

  function StripRight(space: Byte -> bool, s: Bytes): Bytes {
    if s != [] && space(s[|s| - 1]) then StripRight(space, s[..|s| - 1]) else s
  }

  function StripLeft(space: Byte -> bool, s: Bytes): Bytes {
    if s != [] && space(s[0]) then StripLeft(space, s[1..]) else s
  }

  lemma {:induction false} StripRightBlank(space: Byte -> bool, s: Bytes)
    ensures StripRight(space, s) == [] <==> Blank(space, s)
  {
    if s != [] && space(s[|s| - 1]) { StripRightBlank(space, s[..|s| - 1]); }
  }

  lemma {:induction false} StripRightMore(space: Byte -> bool, a: Bytes, b: Bytes)
    requires Blank(space, b)
    ensures StripRight(space, a + b) == StripRight(space, a)
  {
    if b == [] {
      assert a + b == a;
    } else {
      InitOfConcat(a, b);
      StripRightMore(space, a, b[..|b| - 1]);
    }
  }

  lemma {:induction false} StripLeftMore(space: Byte -> bool, a: Bytes, b: Bytes)
    requires Blank(space, a)
    ensures StripLeft(space, a + b) == StripLeft(space, b)
  {
    if a == [] {
      assert a + b == b;
    } else {
      assert (a + b)[1..] == a[1..] + b;
      StripLeftMore(space, a[1..], b);
    }
  }

  lemma {:induction false} StripLeftSplits(space: Byte -> bool, a: Bytes, b: Bytes)
    requires !Blank(space, a)
    ensures StripLeft(space, a + b) == StripLeft(space, a) + b
  {
    assert a != [];
    if space(a[0]) {
      assert (a + b)[1..] == a[1..] + b;
      assert !Blank(space, a[1..]) by { var i :| 0 <= i < |a| && !space(a[i]); assert a[1..][i - 1] == a[i]; }
      StripLeftSplits(space, a[1..], b);
    }
  }

  lemma {:induction false} StripLeftBlank(space: Byte -> bool, s: Bytes)
    ensures Blank(space, StripLeft(space, s)) <==> Blank(space, s)
    ensures Blank(space, s) ==> StripLeft(space, s) == []
  {
    if s != [] && space(s[0]) {
      StripLeftBlank(space, s[1..]);
      assert s == [s[0]] + s[1..];
    }
  }

  // Taking the white space off one byte at a time is such a trimming.
  lemma StrippingStrips(space: Byte -> bool)
    requires space(RETURN)
    ensures Strips(s => StripRight(space, StripLeft(space, s)), space)
  {
    var trim := s => StripRight(space, StripLeft(space, s));
    forall s ensures StripsToNothing(trim, space, s) {
      StripLeftBlank(space, s);
      StripRightBlank(space, StripLeft(space, s));
    }
    forall a, b ensures StripsPair(trim, space, a, b) { StrippingPair(space, a, b); }
  }

  lemma StrippingPair(space: Byte -> bool, a: Bytes, b: Bytes)
    ensures Blank(space, a) ==> StripRight(space, StripLeft(space, a + b)) == StripRight(space, StripLeft(space, b))
    ensures Blank(space, b) ==> StripRight(space, StripLeft(space, a + b)) == StripRight(space, StripLeft(space, a))
  {
    if Blank(space, a) { StripLeftMore(space, a, b); }
    if Blank(space, b) {
      if Blank(space, a) {
        assert Blank(space, a + b);
        StripLeftBlank(space, a + b);
        StripLeftBlank(space, a);
      } else {
        StripLeftSplits(space, a, b);
        StripRightMore(space, StripLeft(space, a), b);
      }
    }
  }

  // Everything but white space lies in one of the windows of 2048 bytes that
  // start with the line.
  ghost predicate OneWindow(space: Byte -> bool, line: Bytes) {
    forall i, k :: 0 <= i < |line| && 0 <= k < |line| && !space(line[i]) && !space(line[k]) ==> i / LINE_MAX == k / LINE_MAX
  }

  lemma {:induction false} ReturnsAreBlank(trim: Bytes -> Bytes, space: Byte -> bool, s: Bytes)
    requires Strips(trim, space)
    ensures trim(TrimReturns(s)) == trim(s)
  {
    if s != [] && s[|s| - 1] == RETURN {
      ReturnsAreBlank(trim, space, s[..|s| - 1]);
      assert s == s[..|s| - 1] + [RETURN];
      assert StripsPair(trim, space, s[..|s| - 1], [RETURN]);
    }
  }

  // The first chunk of a line, and the rest of it.
  lemma FirstChunk(line: Bytes) returns (chunk: Bytes, rest: Bytes)
    requires |line| > LINE_MAX
    ensures line == chunk + rest && |chunk| == LINE_MAX && rest != [] && |rest| < |line|
  {
    chunk, rest := line[..LINE_MAX], line[LINE_MAX..];
  }

  lemma WindowRest(space: Byte -> bool, line: Bytes, chunk: Bytes, rest: Bytes)
    requires |chunk| == LINE_MAX && line == chunk + rest && OneWindow(space, line)
    ensures OneWindow(space, rest)
    ensures Blank(space, chunk) || Blank(space, rest)
  {
    forall i, k | 0 <= i < |rest| && 0 <= k < |rest| && !space(rest[i]) && !space(rest[k])
      ensures i / LINE_MAX == k / LINE_MAX
    {
      assert line[i + LINE_MAX] == rest[i] && line[k + LINE_MAX] == rest[k];
      assert (i + LINE_MAX) / LINE_MAX == (k + LINE_MAX) / LINE_MAX;
    }
    forall i, k | 0 <= i < LINE_MAX && 0 <= k < |rest| ensures space(chunk[i]) || space(rest[k]) {
      assert line[i] == chunk[i] && line[k + LINE_MAX] == rest[k] && i / LINE_MAX != (k + LINE_MAX) / LINE_MAX;
    }
  }

  // A piece is handed on unless it is blank.
  lemma ShownUnlessBlank(trim: Bytes -> Bytes, space: Byte -> bool, piece: Piece)
    requires Strips(trim, space)
    ensures |Emit(trim, piece)| == if Blank(space, piece.raw) then 0 else 1
    ensures Emit(trim, piece) == Emit(trim, Line(piece.raw))
  {
    ReturnsAreBlank(trim, space, piece.raw);
    assert StripsToNothing(trim, space, piece.raw);
  }

  lemma FirstCut(trim: Bytes -> Bytes, line: Bytes, chunk: Bytes, rest: Bytes, j: int)
    requires j > 0 && |chunk| == LINE_MAX && rest != [] && line == chunk + rest
    ensures Emitted(trim, CutLine(line, j)) == Emit(trim, Chunk(chunk)) + Emitted(trim, CutLine(rest, j - 1))
  {
    assert line[..LINE_MAX] == chunk && line[LINE_MAX..] == rest;
    EmittedBoth(trim, [Chunk(chunk)], CutLine(rest, j - 1));
    EmittedOne(trim, Chunk(chunk));
  }

  lemma JoinedText(trim: Bytes -> Bytes, space: Byte -> bool, line: Bytes, chunk: Bytes, rest: Bytes)
    requires Strips(trim, space) && line == chunk + rest && (Blank(space, chunk) || Blank(space, rest))
    ensures Emit(trim, Chunk(chunk)) + Emit(trim, Line(rest)) == Emit(trim, Line(line))
  {
    ReturnsAreBlank(trim, space, line);
    ReturnsAreBlank(trim, space, rest);
    assert StripsPair(trim, space, chunk, rest) && StripsToNothing(trim, space, chunk) && StripsToNothing(trim, space, rest);
    if Blank(space, chunk) {
      assert [] + Emit(trim, Line(rest)) == Emit(trim, Line(rest));
    } else {
      assert Emit(trim, Chunk(chunk)) + [] == Emit(trim, Chunk(chunk));
    }
  }

  lemma WholeHides(trim: Bytes -> Bytes, line: Bytes, j: int)
    requires j <= 0 || |line| <= LINE_MAX
    ensures Hides(trim, line, j) && Emitted(trim, CutLine(line, j)) == Emit(trim, Line(line))
  {
    EmittedOne(trim, Line(line));
  }

  lemma WindowStep(trim: Bytes -> Bytes, space: Byte -> bool, line: Bytes, chunk: Bytes, rest: Bytes, j: int)
    requires Strips(trim, space) && j > 0 && |chunk| == LINE_MAX && rest != [] && line == chunk + rest
    requires Blank(space, chunk) || Blank(space, rest)
    requires Hides(trim, rest, j - 1)
    ensures Hides(trim, line, j)
  {
    FirstCut(trim, line, chunk, rest, j);
    JoinedText(trim, space, line, chunk, rest);
  }

  lemma {:induction false} WindowHides(trim: Bytes -> Bytes, space: Byte -> bool, line: Bytes, j: int)
    requires Strips(trim, space) && OneWindow(space, line)
    ensures Hides(trim, line, j)
    decreases |line|
  {
    if j <= 0 || |line| <= LINE_MAX {
      WholeHides(trim, line, j);
    } else {
      var chunk, rest := FirstChunk(line);
      WindowRest(space, line, chunk, rest);
      WindowHides(trim, space, rest, j - 1);
      WindowStep(trim, space, line, chunk, rest, j);
    }
  }

  // How many lines the callback gets of a line that is cut.
  function Told(space: Byte -> bool, line: Bytes, j: int): nat {
    if j <= 0 || |line| <= LINE_MAX then (if Blank(space, line) then 0 else 1)
    else (if Blank(space, line[..LINE_MAX]) then 0 else 1) + Told(space, line[LINE_MAX..], j - 1)
  }

  lemma ToldFirst(space: Byte -> bool, line: Bytes, chunk: Bytes, rest: Bytes, j: int)
    requires j > 0 && |chunk| == LINE_MAX && rest != [] && line == chunk + rest
    ensures Told(space, line, j) == (if Blank(space, chunk) then 0 else 1) + Told(space, rest, j - 1)
  {
    assert line[..LINE_MAX] == chunk && line[LINE_MAX..] == rest;
  }

  predicate Tells(trim: Bytes -> Bytes, space: Byte -> bool, line: Bytes, j: int) {
    |Emitted(trim, CutLine(line, j))| == Told(space, line, j)
  }

  lemma TellsWhole(trim: Bytes -> Bytes, space: Byte -> bool, line: Bytes, j: int)
    requires Strips(trim, space) && (j <= 0 || |line| <= LINE_MAX)
    ensures Tells(trim, space, line, j)
  {
    WholeHides(trim, line, j);
    ShownUnlessBlank(trim, space, Line(line));
  }

  lemma AddsUp(a: seq<Bytes>, b: seq<Bytes>, all: seq<Bytes>)
    requires all == a + b
    ensures |all| == |a| + |b|
  {}

  lemma TellsNext(trim: Bytes -> Bytes, space: Byte -> bool, line: Bytes, chunk: Bytes, rest: Bytes, j: int)
    requires Strips(trim, space) && j > 0 && |chunk| == LINE_MAX && rest != [] && line == chunk + rest
    requires Tells(trim, space, rest, j - 1)
    ensures Tells(trim, space, line, j)
  {
    FirstCut(trim, line, chunk, rest, j);
    ShownUnlessBlank(trim, space, Chunk(chunk));
    AddsUp(Emit(trim, Chunk(chunk)), Emitted(trim, CutLine(rest, j - 1)), Emitted(trim, CutLine(line, j)));
    ToldFirst(space, line, chunk, rest, j);
  }

  lemma {:induction false} ToldIsEmitted(trim: Bytes -> Bytes, space: Byte -> bool, line: Bytes, j: int)
    requires Strips(trim, space)
    ensures Tells(trim, space, line, j)
    decreases |line|
  {
    if j <= 0 || |line| <= LINE_MAX {
      TellsWhole(trim, space, line, j);
    } else {
      var chunk, rest := FirstChunk(line);
      ToldIsEmitted(trim, space, rest, j - 1);
      TellsNext(trim, space, line, chunk, rest, j);
    }
  }

  lemma {:induction false} OneToldAt(space: Byte -> bool, line: Bytes, j: int, i: nat)
    requires i < |line| && !space(line[i])
    ensures Told(space, line, j) >= 1
    decreases |line|
  {
    if j > 0 && |line| > LINE_MAX {
      if i < LINE_MAX {
        assert !Blank(space, line[..LINE_MAX]) by { assert line[..LINE_MAX][i] == line[i]; }
      } else {
        OneToldAt(space, line[LINE_MAX..], j - 1, i - LINE_MAX);
      }
    }
  }

  lemma {:induction false} TwoToldAt(space: Byte -> bool, line: Bytes, j: nat, i: nat, k: nat)
    requires i < j * LINE_MAX <= k < |line| && !space(line[i]) && !space(line[k])
    ensures Told(space, line, j) >= 2
    decreases |line|
  {
    if i < LINE_MAX {
      assert !Blank(space, line[..LINE_MAX]) by { assert line[..LINE_MAX][i] == line[i]; }
      OneToldAt(space, line[LINE_MAX..], j - 1, k - LINE_MAX);
    } else {
      TwoToldAt(space, line[LINE_MAX..], j - 1, i - LINE_MAX, k - LINE_MAX);
    }
  }

  // A line shows none of its cuts if and only if everything but white space lies
  // in one window.
  lemma SteadyIffOneWindow(trim: Bytes -> Bytes, space: Byte -> bool, line: Bytes)
    requires Strips(trim, space)
    ensures Steady(trim, line) <==> OneWindow(space, line)
  {
    if OneWindow(space, line) {
      forall j: nat | j * LINE_MAX < |line| ensures Hides(trim, line, j) { WindowHides(trim, space, line, j); }
    } else {
      var i, k :| 0 <= i < |line| && 0 <= k < |line| && !space(line[i]) && !space(line[k]) && i / LINE_MAX < k / LINE_MAX;
      TwoToldAt(space, line, k / LINE_MAX, i, k);
      ToldIsEmitted(trim, space, line, k / LINE_MAX);
      assert !Hides(trim, line, k / LINE_MAX);
    }
  }

  // So for trimming at both ends: the split does not show in what the callback
  // gets if and only if each finished line has its text in one window.
  lemma CallbackIgnoresSplitIffWindows(trim: Bytes -> Bytes, space: Byte -> bool, s: Bytes)
    requires Strips(trim, space)
    ensures SameEmitted(trim, s) <==> forall i :: 0 <= i < |LinesOf(s).0| ==> OneWindow(space, LinesOf(s).0[i].raw)
  {
    CallbackIgnoresSplitIffSteady(trim, s);
    forall i | 0 <= i < |LinesOf(s).0| ensures Steady(trim, LinesOf(s).0[i].raw) <==> OneWindow(space, LinesOf(s).0[i].raw) {
      SteadyIffOneWindow(trim, space, LinesOf(s).0[i].raw);
    }
  }
}
