/** What it means to cut a byte stream into lines: the stopping rule of
    `readline`, the cuts of `readlines`, and when the two agree. */
module Lines {

  /** The terminator ends right before position `n`. */
  predicate EndsAt(s: string, n: int, eol: string) {
    1 <= n <= |s| && |eol| <= n && s[n - |eol|..n] == eol
  }

  lemma EndsInSlice(s: string, lo: nat, hi: nat, m: nat, eol: string)
    requires lo <= hi <= |s| && 1 <= m <= hi - lo && |eol| <= m
    ensures EndsAt(s[lo..hi], m, eol) <==> EndsAt(s, lo + m, eol)
  {
    var piece := s[lo..hi];
    var a, b := piece[m - |eol|..m], s[lo + m - |eol|..lo + m];
    assert forall j :: 0 <= j < |eol| ==> a[j] == piece[m - |eol| + j] == s[lo + (m - |eol| + j)] == b[j];
    assert a == b;
  }

  lemma EndsInPrefix(s: string, k: nat, m: nat, eol: string)
    requires m <= k <= |s|
    ensures EndsAt(s[..k], m, eol) <==> EndsAt(s, m, eol)
  {
    if 1 <= m && |eol| <= m {
      assert s[0..k] == s[..k];
      EndsInSlice(s, 0, k, m, eol);
    }
  }

  /** `readline` stops after its `n`-th byte. */
  predicate StopsAt(s: string, n: int, size: nat, eol: string) {
    EndsAt(s, n, eol) || (n == size && 1 <= n <= |s| && |eol| <= n)
  }

  /** Nothing before the last byte of `s` stopped `readline`. */
  ghost predicate RunsThrough(s: string, size: nat, eol: string) {
    forall m :: 1 <= m < |s| ==> !StopsAt(s, m, size, eol)
  }

  // -------------------------------------------------------------------------
  // readline
  // -------------------------------------------------------------------------

  /** The bytes `readline` stores from the stream `s`, `n` of them already
      stored: the loop of the code, with no bound of its own on the buffer. */
  function LineLength(s: string, n: nat, size: nat, eol: string): (k: nat)
    requires n <= |s|
    ensures n <= k <= |s| && (n < |s| ==> n < k)
    decreases |s| - n
  {
    if n == |s| then n
    else if n + 1 < |eol| then LineLength(s, n + 1, size, eol)
    else if EndsAt(s, n + 1, eol) || n + 1 == size then n + 1
    else LineLength(s, n + 1, size, eol)
  }

  /** The loop stops at the first stopping point, or when the stream dries up. */
  lemma {:induction false} LineLengthIsFirstStop(s: string, n: nat, size: nat, eol: string)
    requires n <= |s|
    ensures var k := LineLength(s, n, size, eol);
      && (forall m :: n < m < k ==> !StopsAt(s, m, size, eol))
      && (k == |s| || StopsAt(s, k, size, eol))
    decreases |s| - n
  {
    if n < |s| {
      LineLengthIsFirstStop(s, n + 1, size, eol);
    }
  }

  /** The fixed-size buffer of `readline` is never overrun, whatever the device
      sends, exactly when it has room for one byte and for the terminator. */
  lemma BufferSufficesIff(size: nat, eol: string)
    ensures (forall s :: LineLength(s, 0, size, eol) <= size) <==> 1 <= size && |eol| <= size
  {
    if 1 <= size && |eol| <= size {
      hide LineLength;
      forall s
        ensures LineLength(s, 0, size, eol) <= size
      {
        LineLengthIsFirstStop(s, 0, size, eol);
        assert size < |s| ==> StopsAt(s, size, size, eol);
      }
    } else {
      var s := seq(size + 1, _ => 'x');
      LineLengthIsFirstStop(s, 0, size, eol);
      var k := LineLength(s, 0, size, eol);
      hide LineLength;
      assert size >= 1 && StopsAt(s, k, size, eol) ==> |eol| <= k;
    }
  }

  /** A run of `readline` that did not time out is fully determined by the
      stream: the bytes it took are the stream's first line. */
  lemma StoppedRunIsLine(stream: string, got: string, size: nat, eol: string)
    requires got <= stream
    requires RunsThrough(got, size, eol) && StopsAt(got, |got|, size, eol)
    ensures |got| == LineLength(stream, 0, size, eol)
  {
    var k := LineLength(stream, 0, size, eol);
    LineLengthIsFirstStop(stream, 0, size, eol);
    assert stream[..|got|] == got;
    forall m | 1 <= m <= |got|
      ensures StopsAt(got, m, size, eol) <==> StopsAt(stream, m, size, eol)
    {
      EndsInPrefix(stream, |got|, m, eol);
    }
    assert StopsAt(stream, |got|, size, eol);
    assert k < |got| ==> StopsAt(stream, k, size, eol) && !StopsAt(got, k, size, eol);
  }

  // -------------------------------------------------------------------------
  // readlines
  // -------------------------------------------------------------------------

  /** The last place up to `n` where the terminator ends, 0 if there is none:
      the code's `start_of_line`. */
  function LastCut(s: string, n: nat, eol: string): (c: nat)
    requires n <= |s|
    ensures c <= n
  {
    if n == 0 then 0 else if EndsAt(s, n, eol) then n else LastCut(s, n - 1, eol)
  }

  lemma {:induction false} LastCutIsLast(s: string, n: nat, eol: string)
    requires n <= |s|
    ensures var c := LastCut(s, n, eol);
      && (c == 0 || EndsAt(s, c, eol))
      && (forall m :: c < m <= n ==> !EndsAt(s, m, eol))
  {
    if n > 0 {
      LastCutIsLast(s, n - 1, eol);
    }
  }

  /** The lines `readlines` has pushed after `n` bytes of `s`. */
  function CutLines(s: string, n: nat, eol: string): seq<string>
    requires n <= |s|
  {
    if n == 0 then []
    else if EndsAt(s, n, eol) then CutLines(s, n - 1, eol) + [s[LastCut(s, n - 1, eol)..n]]
    else CutLines(s, n - 1, eol)
  }

  /** What `readlines` returns after `n` bytes: a last unterminated piece counts. */
  function AllLines(s: string, n: nat, eol: string): seq<string>
    requires n <= |s|
  {
    var c := LastCut(s, n, eol);
    CutLines(s, n, eol) + (if c < n then [s[c..n]] else [])
  }

  /** Bytes give lines, and only bytes do. */
  lemma NoLinesIff(s: string, n: nat, eol: string)
    requires n <= |s|
    ensures AllLines(s, n, eol) == [] <==> n == 0
  {
    CutsGiveLines(s, n, eol);
  }

  lemma {:induction false} CutsGiveLines(s: string, n: nat, eol: string)
    requires n <= |s|
    ensures LastCut(s, n, eol) > 0 ==> CutLines(s, n, eol) != []
  {
    if n > 0 {
      CutsGiveLines(s, n - 1, eol);
    }
  }

  // -------------------------------------------------------------------------
  // The clean split
  // -------------------------------------------------------------------------

  function Flatten(lines: seq<string>): string {
    if lines == [] then [] else lines[0] + Flatten(lines[1..])
  }

  ghost predicate OnlyAtEnd(line: string, eol: string) {
    forall m :: 1 <= m < |line| ==> !EndsAt(line, m, eol)
  }

  /** A line with the terminator at its end and nowhere else. */
  ghost predicate Terminated(line: string, eol: string) {
    EndsAt(line, |line|, eol) && OnlyAtEnd(line, eol)
  }

  /** The lines are non-empty, concatenate to `s`, hold the terminator only at
      the end, and all but the last are terminated. */
  ghost predicate Clean(lines: seq<string>, s: string, eol: string) {
    && Flatten(lines) == s
    && (forall i :: 0 <= i < |lines| ==> lines[i] != [] && OnlyAtEnd(lines[i], eol))
    && (forall i :: 0 <= i < |lines| - 1 ==> Terminated(lines[i], eol))
  }

  lemma {:induction false} FlattenSnoc(lines: seq<string>, l: string)
    ensures Flatten(lines + [l]) == Flatten(lines) + l
  {
    if lines == [] {
      assert Flatten([l]) == l;
    } else {
      FlattenSnoc(lines[1..], l);
      assert (lines + [l])[1..] == lines[1..] + [l];
    }
  }

  lemma EmptyIff(lines: seq<string>, s: string, eol: string)
    requires Clean(lines, s, eol)
    ensures s == [] <==> lines == []
    ensures |lines| == 1 ==> s == lines[0]
  {
    if lines != [] {
      assert s == lines[0] + Flatten(lines[1..]) && lines[0] != [];
    }
  }

  /** There is only one clean split of a text. */
  lemma {:induction false} CleanUnique(a: seq<string>, b: seq<string>, s: string, eol: string)
    requires Clean(a, s, eol) && Clean(b, s, eol)
    ensures a == b
    decreases |a|
  {
    EmptyIff(a, s, eol);
    EmptyIff(b, s, eol);
    if s != [] {
      FirstLineNotShorter(a, b, s, eol);
      FirstLineNotShorter(b, a, s, eol);
      assert s[|a[0]|..] == Flatten(a[1..]) && s[|b[0]|..] == Flatten(b[1..]);
      assert s[..|a[0]|] == a[0] && s[..|b[0]|] == b[0];
      CleanUnique(a[1..], b[1..], s[|a[0]|..], eol);
    }
  }

  lemma FirstLineNotShorter(a: seq<string>, b: seq<string>, s: string, eol: string)
    requires Clean(a, s, eol) && Clean(b, s, eol)
    requires a != [] && b != []
    ensures |a[0]| >= |b[0]|
  {
    var n := |a[0]|;
    assert s == a[0] + Flatten(a[1..]) && s == b[0] + Flatten(b[1..]);
    EmptyIff(a, s, eol);
    if n < |b[0]| {
      assert Terminated(a[0], eol);
      assert s[..n] == a[0] && s[..|b[0]|] == b[0];
      EndsInPrefix(s, n, n, eol);
      EndsInPrefix(s, |b[0]|, n, eol);
    }
  }

  // -------------------------------------------------------------------------
  // When readlines splits cleanly
  // -------------------------------------------------------------------------

  /** A proper prefix of the terminator is also its suffix. */
  predicate Border(eol: string, b: int) {
    0 < b < |eol| && eol[..b] == eol[|eol| - b..]
  }

  ghost predicate BorderFree(eol: string) {
    forall b :: !Border(eol, b)
  }

  /** Two terminators that overlap show a border. */
  lemma OverlapIsBorder(s: string, start: nat, n: nat, eol: string)
    requires EndsAt(s, start, eol) && EndsAt(s, n, eol) && start < n < start + |eol|
    ensures Border(eol, start + |eol| - n)
  {
    var b := start + |eol| - n;
    assert eol[..b] == s[n - |eol|..n][..b] == s[n - |eol|..start];
    assert eol[|eol| - b..] == s[start - |eol|..start][|eol| - b..] == s[start - b..start];
  }

  /** Without self-overlap a terminator never reaches back into the line before. */
  lemma NoOverlap(s: string, start: nat, n: nat, eol: string)
    requires BorderFree(eol)
    requires EndsAt(s, n, eol) && start < n
    requires start == 0 || EndsAt(s, start, eol)
    ensures start + |eol| <= n
  {
    if start + |eol| > n {
      OverlapIsBorder(s, start, n, eol);
    }
  }

  /** A piece from a cut to `n` holds no terminator except possibly at `n`. */
  lemma PieceOnlyAtEnd(s: string, start: nat, n: nat, eol: string)
    requires start <= n <= |s|
    requires forall m :: start < m < n ==> !EndsAt(s, m, eol)
    ensures OnlyAtEnd(s[start..n], eol)
  {
    var piece := s[start..n];
    forall m | 1 <= m < |piece|
      ensures !EndsAt(piece, m, eol)
    {
      if EndsAt(piece, m, eol) {
        EndsInSlice(s, start, n, m, eol);
      }
    }
  }

  /** A line pushed by `readlines` is terminated. */
  lemma PushedLineTerminated(s: string, c: nat, n: nat, eol: string)
    requires BorderFree(eol) && c < n && EndsAt(s, n, eol)
    requires c == 0 || EndsAt(s, c, eol)
    requires forall m :: c < m < n ==> !EndsAt(s, m, eol)
    ensures Terminated(s[c..n], eol)
  {
    assert n <= |s|;
    hide EndsAt, OnlyAtEnd, BorderFree;
    NoOverlap(s, c, n, eol);
    PieceOnlyAtEnd(s, c, n, eol);
    EndsInSlice(s, c, n, n - c, eol);
  }

  lemma CutStep(s: string, n: nat, eol: string)
    requires n <= |s|
    ensures n == 0 ==> CutLines(s, n, eol) == [] && LastCut(s, n, eol) == 0
    ensures n > 0 && EndsAt(s, n, eol) ==>
              CutLines(s, n, eol) == CutLines(s, n - 1, eol) + [s[LastCut(s, n - 1, eol)..n]] && LastCut(s, n, eol) == n
    ensures n > 0 && !EndsAt(s, n, eol) ==>
              CutLines(s, n, eol) == CutLines(s, n - 1, eol) && LastCut(s, n, eol) == LastCut(s, n - 1, eol)
  {
  }

  /** The lines pushed so far are the bytes up to the last cut. */
  lemma {:induction false} CutLinesFlatten(s: string, n: nat, eol: string)
    requires n <= |s|
    ensures Flatten(CutLines(s, n, eol)) == s[..LastCut(s, n, eol)]
  {
    assert Flatten([]) == [];
    hide *;
    CutStep(s, n, eol);
    if n > 0 {
      CutLinesFlatten(s, n - 1, eol);
      if EndsAt(s, n, eol) {
        var c, before := LastCut(s, n - 1, eol), CutLines(s, n - 1, eol);
        FlattenSnoc(before, s[c..n]);
        assert s[..n] == s[..c] + s[c..n];
      }
    }
  }

  lemma {:induction false} CutLinesTerminated(s: string, n: nat, eol: string)
    requires n <= |s| && BorderFree(eol)
    ensures forall l <- CutLines(s, n, eol) :: Terminated(l, eol)
  {
    hide *;
    CutStep(s, n, eol);
    if n > 0 {
      CutLinesTerminated(s, n - 1, eol);
      if EndsAt(s, n, eol) {
        LastCutIsLast(s, n - 1, eol);
        PushedLineTerminated(s, LastCut(s, n - 1, eol), n, eol);
      }
    }
  }

  lemma AllLinesClean(s: string, n: nat, eol: string)
    requires n <= |s| && BorderFree(eol)
    ensures Clean(AllLines(s, n, eol), s[..n], eol)
  {
    var c := LastCut(s, n, eol);
    var cut := CutLines(s, n, eol);
    assert AllLines(s, n, eol) == cut + (if c < n then [s[c..n]] else []);
    hide *;
    CutLinesFlatten(s, n, eol);
    CutLinesTerminated(s, n, eol);
    LastCutIsLast(s, n, eol);
    if c < n {
      PieceOnlyAtEnd(s, c, n, eol);
      assert s[..n] == s[..c] + s[c..n];
      TailAfterTerminated(cut, s[..c], s[c..n], eol);
    } else {
      assert cut + [] == cut;
      AllTerminatedClean(cut, s[..n], eol);
    }
  }

  lemma AllTerminatedClean(lines: seq<string>, s: string, eol: string)
    requires Flatten(lines) == s
    requires forall l <- lines :: Terminated(l, eol)
    ensures Clean(lines, s, eol)
  {
    assert forall i :: 0 <= i < |lines| ==> lines[i] in lines;
  }

  lemma TailAfterTerminated(lines: seq<string>, s: string, tail: string, eol: string)
    requires Flatten(lines) == s && tail != [] && OnlyAtEnd(tail, eol)
    requires forall l <- lines :: Terminated(l, eol)
    ensures Clean(lines + [tail], s + tail, eol)
  {
    FlattenSnoc(lines, tail);
    assert forall i :: 0 <= i < |lines| ==> lines[i] in lines;
  }

  /** What `readlines` makes of the stream `s` is its clean split. */
  ghost predicate SplitsCleanly(s: string, eol: string) {
    Clean(AllLines(s, |s|, eol), s, eol)
  }

  /** `readlines` splits every stream cleanly exactly when its terminator does
      not overlap itself. */
  lemma CleanIffBorderFree(eol: string)
    ensures (forall s :: SplitsCleanly(s, eol)) <==> BorderFree(eol)
  {
    hide AllLines, Clean;
    if BorderFree(eol) {
      forall s
        ensures SplitsCleanly(s, eol)
      {
        AllLinesClean(s, |s|, eol);
        assert s[..|s|] == s;
      }
    } else {
      var b :| Border(eol, b);
      var s := OverlapExposed(eol, b);
    }
  }

  /** The stream that exposes a self-overlapping terminator: the terminator,
      its own continuation, and one more byte. */
  lemma OverlapExposed(eol: string, b: nat) returns (s: string)
    requires Border(eol, b)
    ensures !SplitsCleanly(s, eol)
  {
    var x := if eol[|eol| - 1] == 'x' then 'y' else 'x';
    OverlappingEnds(eol, b, x);
    s := eol + eol[b..] + [x];
    ShortLinePushed(s, |eol|, 2 * |eol| - b, eol);
  }

  lemma OverlappingEnds(eol: string, b: nat, x: char)
    requires Border(eol, b) && x != eol[|eol| - 1]
    ensures var s, e := eol + eol[b..] + [x], |eol|;
      EndsAt(s, e, eol) && EndsAt(s, 2 * e - b, eol) && !EndsAt(s, 2 * e - b + 1, eol)
  {
    var s, e := eol + eol[b..] + [x], |eol|;
    var n := 2 * e - b;
    assert s[..e] == eol;
    assert s[n - e..n] == eol by {
      assert s[n - e..n] == s[e - b..e] + s[e..n];
      assert s[e - b..e] == eol[e - b..];
      assert s[e..n] == eol[b..];
      assert eol == eol[..b] + eol[b..];
    }
    assert s[n + 1 - e..n + 1][e - 1] == x;
  }

  lemma ShortLinePushed(s: string, e: nat, n: nat, eol: string)
    requires e == |eol| && e < n < 2 * e && |s| == n + 1
    requires EndsAt(s, e, eol) && EndsAt(s, n, eol) && !EndsAt(s, n + 1, eol)
    ensures !SplitsCleanly(s, eol)
  {
    hide CutLines, LastCut;
    LastCutIsLast(s, n - 1, eol);
    var c := LastCut(s, n - 1, eol);
    CutThenTail(s, n, eol);
    hide AllLines, Clean;
    ShortLineNotClean(CutLines(s, n - 1, eol), s[c..n], s[n..n + 1], s, eol);
  }

  lemma ShortLineNotClean(before: seq<string>, short: string, after: string, s: string, eol: string)
    requires |short| < |eol|
    ensures !Clean(before + [short] + [after], s, eol)
  {
    var lines := before + [short] + [after];
    assert lines[|before|] == short && !Terminated(short, eol);
  }

  lemma CutThenTail(s: string, n: nat, eol: string)
    requires n < |s| && EndsAt(s, n, eol) && !EndsAt(s, n + 1, eol)
    ensures AllLines(s, n + 1, eol)
         == CutLines(s, n - 1, eol) + [s[LastCut(s, n - 1, eol)..n]] + [s[n..n + 1]]
  {
    hide CutLines, LastCut;
    CutStep(s, n, eol);
    CutStep(s, n + 1, eol);
  }

  // -------------------------------------------------------------------------
  // readlines against repeated readline
  // -------------------------------------------------------------------------

  /** Calling `readline` until the stream dries up. */
  function Repeated(s: string, size: nat, eol: string): seq<string>
    decreases |s|
  {
    if s == [] then []
    else var k := LineLength(s, 0, size, eol); [s[..k]] + Repeated(s[k..], size, eol)
  }

  lemma {:induction false} RepeatedClean(s: string, size: nat, eol: string)
    requires |s| < size
    ensures Clean(Repeated(s, size, eol), s, eol)
    decreases |s|
  {
    if s == [] {
      assert Clean([], [], eol);
    } else {
      var k := LineLength(s, 0, size, eol);
      assert Repeated(s, size, eol) == [s[..k]] + Repeated(s[k..], size, eol);
      hide *;
      RepeatedClean(s[k..], size, eol);
      FirstLineIsClean(s, k, size, eol);
      assert s == s[..k] + s[k..];
      CleanCons(s[..k], Repeated(s[k..], size, eol), s[k..], eol);
    }
  }

  lemma FirstLineIsClean(s: string, k: nat, size: nat, eol: string)
    requires 0 < |s| < size && k == LineLength(s, 0, size, eol)
    ensures OnlyAtEnd(s[..k], eol)
    ensures k < |s| ==> Terminated(s[..k], eol)
  {
    hide LineLength, EndsAt;
    LineLengthIsFirstStop(s, 0, size, eol);
    forall m | 1 <= m <= k
      ensures EndsAt(s[..k], m, eol) <==> EndsAt(s, m, eol)
    {
      EndsInPrefix(s, k, m, eol);
    }
    forall m | 1 <= m < k
      ensures !EndsAt(s[..k], m, eol)
    {
      assert !StopsAt(s, m, size, eol);
    }
    assert |s[..k]| == k && (k < |s| ==> StopsAt(s, k, size, eol));
  }

  lemma CleanCons(line: string, rest: seq<string>, s: string, eol: string)
    requires line != [] && OnlyAtEnd(line, eol) && Clean(rest, s, eol)
    requires s != [] ==> Terminated(line, eol)
    ensures Clean([line] + rest, line + s, eol)
  {
    EmptyIff(rest, s, eol);
    var lines := [line] + rest;
    assert lines[1..] == rest;
    assert forall i :: 1 <= i < |lines| ==> lines[i] == rest[i - 1];
  }

  /** As long as the bytes taken do not fill the buffer, one `readlines` returns
      what repeated `readline` calls on those bytes would. */
  lemma ReadlinesIsRepeatedReadline(stream: string, n: nat, size: nat, eol: string)
    requires n <= |stream| && n < size && BorderFree(eol)
    ensures AllLines(stream, n, eol) == Repeated(stream[..n], size, eol)
  {
    AllLinesClean(stream, n, eol);
    RepeatedClean(stream[..n], size, eol);
    CleanUnique(AllLines(stream, n, eol), Repeated(stream[..n], size, eol), stream[..n], eol);
  }

  /** One line closed by a one-character terminator is read as this one. */
  lemma OneLine(a: string, c: char, rest: string)
    requires c !in a
    ensures AllLines(a + [c] + rest, |a| + 1, [c]) == [a + [c]]
  {
    var got := a + [c];
    assert (got + rest)[..|got|] == got;
    hide AllLines, Clean;
    OneLineTerminated(a, c);
    OneLineClean(got, [c]);
    SingletonBorderFree(c);
    AllLinesClean(got + rest, |got|, [c]);
    CleanUnique(AllLines(got + rest, |got|, [c]), [got], got, [c]);
  }

  lemma OneLineClean(line: string, eol: string)
    requires line != [] && Terminated(line, eol)
    ensures Clean([line], line, eol)
  {
    assert [line][1..] == [] && line + Flatten([]) == line;
  }

  /** Two lines closed by a one-character terminator are read as these two. */
  lemma TwoLines(a: string, b: string, c: char, rest: string)
    requires c !in a && c !in b
    ensures var got := a + [c] + b + [c];
      AllLines(got + rest, |got|, [c]) == [a + [c], b + [c]]
  {
    var la, lb := a + [c], b + [c];
    var got := a + [c] + b + [c];
    assert got == la + lb && (got + rest)[..|got|] == got;
    hide AllLines, Clean;
    OneLineTerminated(a, c);
    OneLineTerminated(b, c);
    TwoLinesClean(la, lb, [c]);
    SingletonBorderFree(c);
    AllLinesClean(got + rest, |got|, [c]);
    CleanUnique(AllLines(got + rest, |got|, [c]), [la, lb], got, [c]);
  }

  lemma SingletonBorderFree(c: char)
    ensures BorderFree([c])
  {
  }

  lemma OneLineTerminated(a: string, c: char)
    requires c !in a
    ensures Terminated(a + [c], [c])
  {
    var l := a + [c];
    assert l[|a|..|a| + 1] == [c];
    forall m | 1 <= m < |l|
      ensures !EndsAt(l, m, [c])
    {
      assert l[m - 1..m][0] == a[m - 1] && a[m - 1] in a;
    }
  }

  lemma TwoLinesClean(a: string, b: string, eol: string)
    requires Terminated(a, eol) && Terminated(b, eol)
    ensures Clean([a, b], a + b, eol)
  {
    assert Flatten([b]) == b by {
      assert [b][1..] == [];
    }
    assert [a, b][1..] == [b];
  }

  /** The terminators in use do not overlap themselves. */
  lemma TerminatorsInUse()
    ensures BorderFree("\r") && BorderFree("\r\n") && BorderFree("\n\r")
  {
    assert forall b, eol {:trigger Border(eol, b)} ::
        Border(eol, b) && |eol| == 2 ==> b == 1 && eol[..1][0] == eol[0] && eol[1..][0] == eol[1] && eol[0] == eol[1];
  }
}
