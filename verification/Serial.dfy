/** The portable serial port: whole-message writes, `readline`, `readlines`, and
    the log of what went through the port. */
module SerialPort {
  import opened Outcome
  import opened Timer
  import opened Kernel
  import opened UnixPort
  import opened Lines

  /** One transfer: a write call and how much of the message the kernel took, a
      read of lines, whether the caller got them and how long it took, or a reset of
      the connection. */
  datatype Event = Sent(msg: string, n: nat) | Heard(bytes: string, ok: bool, span: nat) | Reset

  function SentBytes(log: seq<Event>): string {
    if log == [] then []
    else
      SentBytes(log[..|log| - 1]) + EventBytes(log[|log| - 1])
  }

  /** The bytes of one event the kernel took. */
  function EventBytes(e: Event): string {
    if e.Sent? && e.n <= |e.msg| then e.msg[..e.n] else []
  }

  function HeardBytes(log: seq<Event>): string {
    if log == [] then []
    else
      var e := log[|log| - 1];
      HeardBytes(log[..|log| - 1]) + (if e.Heard? then e.bytes else [])
  }

  lemma BytesSnoc(log: seq<Event>, e: Event)
    ensures SentBytes(log + [e]) == SentBytes(log) + EventBytes(e)
    ensures HeardBytes(log + [e]) == HeardBytes(log) + (if e.Heard? then e.bytes else [])
  {
    assert (log + [e])[..|log|] == log;
  }

  /** The kernel hands over `k` bytes in a row, if they are there. */
  predicate Feeds(script: seq<Answer>, k: nat, millis: nat)
    decreases k
  {
    k == 0 || (Yields(script, millis) && Feeds(script[Used(script)..], k - 1, millis))
  }

  /** How a turn of the `readline` loop ends. */
  datatype Verdict = TimedOut | Stopped | Unstopped

  /** Where the loop of `readlines` stands: bytes read, start of line, lines pushed. */
  datatype Cuts = Cuts(n: nat, start: nat, lines: seq<string>)

  /** Calls a client may make on a port. */
  datatype Call =
    | CallOpen | CallClose | CallFlushInput | CallFlushOutput | CallSetPort(path: string)
    | CallWrite(data: string) | CallReadLine(size: nat, eol: string) | CallReadLines(size: nat, eol: string)

  class Serial {
    const impl: SerialImpl
    ghost var log: seq<Event>

    /** Every byte the kernel took or delivered is accounted for in the log. */
    ghost predicate Valid()
      reads this, impl, impl.os
    {
      && impl.Valid()
      && impl.os.accepted == SentBytes(log)
      && impl.os.delivered == HeardBytes(log)
    }

    /** A byte that has not come within this time, in nanoseconds, may be given up. */
    ghost function ByteTime(): int
      reads impl`timeout
    {
      (ReadBudget(impl.timeout, 1) - 1) * NANOS_PER_MS
    }

    /** The next byte, if there is one, is handed over. */
    ghost predicate Yielding()
      reads impl, impl.os
    {
      Yields(impl.os.script, ReadBudget(impl.timeout, 1))
    }

    /** The device has a whole line, and the kernel hands over every byte of it. */
    ghost predicate Served(size: nat, eol: string)
      reads impl, impl.os
    {
      var k := LineLength(impl.os.incoming, 0, size, eol);
      StopsAt(impl.os.incoming, k, size, eol) && Feeds(impl.os.script, k, ReadBudget(impl.timeout, 1))
    }

    constructor (os: Os, path: string, timeout: Timeout)
      requires os.live == {} && os.accepted == [] && os.delivered == [] && os.Sound()
      ensures Valid() && log == [] && !impl.isOpen && fresh(impl)
      ensures impl.os == os && impl.path == path && impl.timeout == timeout
    {
      impl := new SerialImpl(os, path, timeout);
      log := [];
    }

    method Write(data: string) returns (r: Result<nat>, ghost n: nat)
      requires Valid()
      modifies this`log, impl.os`script, impl.os`now, impl.os`last, impl.os`accepted
      ensures r != Throw(RuntimeFault)
      ensures Valid()
      ensures |impl.os.script| <= |old(impl.os.script)| && impl.os.now >= old(impl.os.now)
      ensures n <= |data| && log == old(log) + [Sent(data, n)]
      ensures impl.os.accepted == old(impl.os.accepted) + data[..n]
      ensures r.Ok? ==> r.value == n
      ensures !impl.isOpen ==> r == Throw(PortNotOpened) && n == 0
      ensures impl.isOpen && !r.Ok? ==> n < |data|
      ensures impl.isOpen && data != [] && old(impl.os.script) != [] && Fails(old(impl.os.script)[0]) ==>
                r == Throw(IoFault) && n == 0 && impl.os.script == old(impl.os.script)[1..]
      ensures impl.isOpen && data != [] && Ready(old(impl.os.script)) &&
              (WriteBudget(impl.timeout, |data|) == 0 || old(impl.os.script)[1].ret >= |data|) ==>
                n == Min(old(impl.os.script)[1].ret, |data|) && r == Ok(n) && impl.os.script == old(impl.os.script)[2..]
      ensures impl.isOpen && Prompt(impl.os.tape) && WriteBudget(impl.timeout, |data|) > 0 ==> r.Cut? || r == Ok(|data|)
    {
      r, n := impl.Write(data);
      BytesSnoc(log, Sent(data, n));
      log := log + [Sent(data, n)];
    }

    /** Appends one line to `buffer`, byte by byte.  The bytes taken are the
        beginning of the stream, none of them but the last could have stopped the
        call, and if the last one did not either, a byte took too long. */
    method ReadLine(buffer: string, size: nat, eol: string)
      returns (r: Result<nat>, out: string, ghost got: string)
      requires Valid()
      requires 1 <= size && |eol| <= size
      modifies this`log, impl.os`script, impl.os`now, impl.os`last, impl.os`incoming, impl.os`delivered
      ensures Valid()
      ensures |impl.os.script| <= |old(impl.os.script)|
      ensures r.Ok? ==> |impl.os.script| < |old(impl.os.script)|
      ensures old(impl.os.incoming) == got + impl.os.incoming
      ensures impl.os.now >= old(impl.os.now)
      ensures log == old(log) + [Heard(got, r.Ok?, impl.os.now - old(impl.os.now))]
      ensures |got| <= size && RunsThrough(got, size, eol)
      ensures if r.Ok? then r.value == |got| && out == buffer + got else out == buffer
      ensures !impl.isOpen ==> r == Throw(PortNotOpened) && got == []
      ensures r.Ok? && !StopsAt(got, |got|, size, eol) ==>
                impl.os.now - old(impl.os.now) > ByteTime()
      ensures impl.isOpen && old(Served(size, eol)) ==>
                r == Ok(LineLength(old(impl.os.incoming), 0, size, eol)) && got == old(impl.os.incoming)[..r.value]
    {
      hide RunsThrough, StopsAt, ByteTime, SentBytes, HeardBytes, Served, LineLength;
      var buf := new char[size];
      r, got := ReadUntil(buf, size, eol);
      out := if r.Ok? then buffer + buf[..r.value] else buffer;
      ghost var e := Heard(got, r.Ok?, impl.os.now - old(impl.os.now));
      BytesSnoc(log, e);
      log := log + [e];
    }

    /** One byte into the buffer: `read_(buffer_ + n, 1)`. */
    method ReadByte(buf: array<char>, n: nat) returns (r: Result<nat>, ghost piece: string)
      requires impl.Valid() && n < buf.Length
      modifies buf, impl.os`script, impl.os`now, impl.os`last, impl.os`incoming, impl.os`delivered
      ensures impl.Valid()
      ensures |impl.os.script| <= |old(impl.os.script)| && impl.os.now >= old(impl.os.now)
      ensures old(impl.os.incoming) == piece + impl.os.incoming
      ensures impl.os.delivered == old(impl.os.delivered) + piece
      ensures |piece| <= 1 && buf[..n + |piece|] == old(buf[..n]) + piece
      ensures !impl.isOpen ==> r == Throw(PortNotOpened) && piece == []
      ensures r.Ok? ==> r.value == |piece| && |impl.os.script| < |old(impl.os.script)|
      ensures r == Ok(0) ==>
                impl.os.now - old(impl.os.now) > ByteTime()
      ensures impl.isOpen && old(impl.os.incoming) != [] && old(Yielding()) ==>
                r == Ok(1) && impl.os.script == old(impl.os.script)[Used(old(impl.os.script))..]
    {
      r, piece := impl.Read(buf, n, 1);
      assert buf[..n + |piece|] == buf[..][..n + |piece|];
      assert old(buf[..n]) == old(buf[..])[..n];
    }

    /** The comparison of the last bytes in the buffer with the terminator. */
    static method SeesTerminator(buf: array<char>, n: nat, eol: string) returns (yes: bool)
      requires 1 <= n <= buf.Length && |eol| <= n
      ensures yes <==> EndsAt(buf[..n], n, eol)
    {
      assert buf[..n][n - |eol|..n] == buf[n - |eol|..n];
      yes := buf[n - |eol|..n] == eol;
    }

    /** One turn of the `readline` loop, with `n` unstopped bytes in the buffer. */
    method ReadLineTurn(buf: array<char>, n: nat, size: nat, eol: string)
      returns (r: Result<Verdict>, ghost piece: string)
      requires impl.Valid() && n < size == buf.Length
      requires RunsThrough(buf[..n], size, eol) && !StopsAt(buf[..n], n, size, eol)
      modifies buf, impl.os`script, impl.os`now, impl.os`last, impl.os`incoming, impl.os`delivered
      ensures impl.Valid()
      ensures |impl.os.script| <= |old(impl.os.script)| && impl.os.now >= old(impl.os.now)
      ensures r.Ok? ==> |impl.os.script| < |old(impl.os.script)|
      ensures old(impl.os.incoming) == piece + impl.os.incoming
      ensures impl.os.delivered == old(impl.os.delivered) + piece
      ensures |piece| <= 1 && buf[..n + |piece|] == old(buf[..n]) + piece
      ensures RunsThrough(buf[..n + |piece|], size, eol)
      ensures !impl.isOpen ==> r == Throw(PortNotOpened) && piece == []
      ensures r == Ok(TimedOut) ==> piece == []
      ensures r == Ok(TimedOut) ==>
                impl.os.now - old(impl.os.now) > ByteTime()
      ensures r.Ok? && r.value != TimedOut ==>
                |piece| == 1 && (r.value == Stopped <==> StopsAt(buf[..n + 1], n + 1, size, eol))
      ensures impl.isOpen && old(impl.os.incoming) != [] && old(Yielding()) ==>
                r.Ok? && r.value != TimedOut && impl.os.script == old(impl.os.script)[Used(old(impl.os.script))..]
    {
      hide EndsAt, ByteTime, Yielding, Used;
      ghost var was := buf[..n];
      var count;
      count, piece := ReadByte(buf, n);
      RunExtended(was, piece, size, eol);
      hide RunsThrough;
      if !count.Ok? {
        return count.PropagateFailure(), piece;
      }
      if count.value == 0 {
        return Ok(TimedOut), piece;
      }
      if n + 1 < |eol| {
        TooShortToStop(buf[..n + 1], n + 1, size, eol);
        return Ok(Unstopped), piece;
      }
      var found := SeesTerminator(buf, n + 1, eol);
      return Ok(if found || n + 1 == size then Stopped else Unstopped), piece;
    }

    /** The loop of `readline`, filling its fixed-size buffer. */
    method ReadUntil(buf: array<char>, size: nat, eol: string) returns (r: Result<nat>, ghost got: string)
      requires impl.Valid()
      requires buf.Length == size && 1 <= size && |eol| <= size
      modifies buf, impl.os`script, impl.os`now, impl.os`last, impl.os`incoming, impl.os`delivered
      ensures impl.Valid()
      ensures |impl.os.script| <= |old(impl.os.script)| && impl.os.now >= old(impl.os.now)
      ensures r.Ok? ==> |impl.os.script| < |old(impl.os.script)|
      ensures old(impl.os.incoming) == got + impl.os.incoming
      ensures impl.os.delivered == old(impl.os.delivered) + got
      ensures |got| <= size && RunsThrough(got, size, eol)
      ensures buf[..|got|] == got
      ensures r.Ok? ==> r.value == |got|
      ensures !impl.isOpen ==> r == Throw(PortNotOpened) && got == []
      ensures r.Ok? && !StopsAt(got, |got|, size, eol) ==>
                impl.os.now - old(impl.os.now) > ByteTime()
      ensures impl.isOpen && old(Served(size, eol)) ==>
                r == Ok(LineLength(old(impl.os.incoming), 0, size, eol)) && got == old(impl.os.incoming)[..r.value]
    {
      var n := 0;
      ghost var stream := impl.os.incoming;
      hide *;
      ghost var goal := Goal(size, eol);
      AtTheStart(size, eol);
      while true
        invariant n < size && n <= |stream| && buf[..n] == stream[..n]
        invariant impl.os.incoming == stream[n..]
        invariant impl.os.delivered == old(impl.os.delivered) + stream[..n]
        invariant impl.Valid()
        invariant impl.os.now >= old(impl.os.now)
        invariant |impl.os.script| <= |old(impl.os.script)|
        invariant n > 0 ==> impl.isOpen
        invariant goal > 0 ==> Due(stream, n, goal, size, eol)
        invariant RunsThrough(stream[..n], size, eol) && !StopsAt(stream[..n], n, size, eol)
        decreases |impl.os.script|
      {
        var verdict, m := StreamTurn(buf, n, size, eol, stream, goal, old(impl.os.delivered));
        if !verdict.Ok? {
          return verdict.PropagateFailure(), stream[..m];
        }
        if verdict.value == TimedOut {
          return Ok(n), stream[..n];
        }
        n := n + 1;
        if verdict.value == Stopped {
          return Ok(n), stream[..n];
        }
        FullBufferStops(stream[..n], n, size, eol);
      }
    }

    /** The length of the line if it is sure to come, or 0. */
    ghost function Goal(size: nat, eol: string): nat
      reads impl, impl.os
    {
      if impl.isOpen && Served(size, eol) then LineLength(impl.os.incoming, 0, size, eol) else 0
    }

    lemma AtTheStart(size: nat, eol: string)
      requires 1 <= size
      ensures var stream := impl.os.incoming;
        && stream[..0] == [] && stream[0..] == stream
        && RunsThrough(stream[..0], size, eol) && !StopsAt(stream[..0], 0, size, eol)
        && (Goal(size, eol) > 0 ==> Due(stream, 0, Goal(size, eol), size, eol))
        && (impl.isOpen && Served(size, eol) ==> Goal(size, eol) == LineLength(stream, 0, size, eol) > 0)
    {
    }

    /** `n` bytes of a first line of `goal` bytes are there, and the kernel hands over
        the rest. */
    ghost predicate Due(stream: string, n: nat, goal: nat, size: nat, eol: string)
      reads impl, impl.os
    {
      && impl.isOpen && n < goal <= |stream| && goal == LineLength(stream, 0, size, eol)
      && StopsAt(stream, goal, size, eol) && Feeds(impl.os.script, goal - n, ReadBudget(impl.timeout, 1))
    }

    /** A turn of the loop, seen along the stream; a positive `goal` says that the line
        is due. */
    method StreamTurn(buf: array<char>, n: nat, size: nat, eol: string,
                      ghost stream: string, ghost goal: nat, ghost before: string)
      returns (r: Result<Verdict>, ghost m: nat)
      requires impl.Valid() && n < size == buf.Length && n <= |stream| && buf[..n] == stream[..n]
      requires impl.os.incoming == stream[n..] && impl.os.delivered == before + stream[..n]
      requires RunsThrough(stream[..n], size, eol) && !StopsAt(stream[..n], n, size, eol)
      requires goal > 0 ==> Due(stream, n, goal, size, eol)
      modifies buf, impl.os`script, impl.os`now, impl.os`last, impl.os`incoming, impl.os`delivered
      ensures impl.Valid()
      ensures |impl.os.script| <= |old(impl.os.script)| && impl.os.now >= old(impl.os.now)
      ensures r.Ok? ==> |impl.os.script| < |old(impl.os.script)|
      ensures n <= m <= n + 1 && m <= |stream| && buf[..m] == stream[..m] && impl.os.incoming == stream[m..]
      ensures impl.os.delivered == before + stream[..m]
      ensures stream == stream[..m] + impl.os.incoming && |stream[..m]| == m
      ensures RunsThrough(stream[..m], size, eol)
      ensures !impl.isOpen ==> r == Throw(PortNotOpened) && m == n
      ensures r == Ok(TimedOut) ==> m == n && impl.os.now - old(impl.os.now) > ByteTime()
      ensures r.Ok? && r.value != TimedOut ==>
                m == n + 1 && (r.value == Stopped <==> StopsAt(stream[..m], m, size, eol))
      ensures goal > 0 ==> r.Ok? && r.value != TimedOut && (r.value == Stopped <==> m == goal)
      ensures goal > 0 && m < goal ==> Due(stream, m, goal, size, eol)
    {
      hide RunsThrough, StopsAt, ByteTime, LineLength, Feeds, Yielding, Used, SerialImpl.Valid, ReadBudget;
      if goal > 0 {
        FedByte(goal - n, ReadBudget(impl.timeout, 1));
      }
      ghost var piece;
      r, piece := ReadLineTurn(buf, n, size, eol);
      NextPiece(stream, n, piece, impl.os.incoming);
      Associate(before, stream[..n], piece);
      m := n + |piece|;
      if goal > 0 {
        LineEndsThere(stream, stream[..m], goal, size, eol);
      }
    }

    lemma FedByte(k: nat, millis: nat)
      requires k > 0 && Feeds(impl.os.script, k, millis) && millis == ReadBudget(impl.timeout, 1)
      ensures Yielding() && impl.os.script != [] && Used(impl.os.script) <= |impl.os.script|
      ensures Feeds(impl.os.script[Used(impl.os.script)..], k - 1, millis)
    {
    }

    /** A run along a stream stops exactly at the end of the stream's first line. */
    static lemma LineEndsThere(stream: string, got: string, k: nat, size: nat, eol: string)
      requires got <= stream && RunsThrough(got, size, eol) && 1 <= |got| <= k == LineLength(stream, 0, size, eol)
      requires StopsAt(stream, k, size, eol)
      ensures StopsAt(got, |got|, size, eol) <==> |got| == k
    {
      assert stream[..|got|] == got;
      EndsInPrefix(stream, |got|, |got|, eol);
      if StopsAt(got, |got|, size, eol) {
        StoppedRunIsLine(stream, got, size, eol);
      }
    }

    static lemma FullBufferStops(s: string, n: nat, size: nat, eol: string)
      requires n == |s| && 1 <= n && |eol| <= size
      ensures n == size ==> StopsAt(s, n, size, eol)
    {
    }

    static lemma TooShortToStop(s: string, n: nat, size: nat, eol: string)
      requires n < |eol|
      ensures !StopsAt(s, n, size, eol)
    {
    }

    /** A run that was not stopped runs through after one more byte. */
    static lemma RunExtended(was: string, piece: string, size: nat, eol: string)
      requires RunsThrough(was, size, eol) && !StopsAt(was, |was|, size, eol)
      requires |piece| <= 1
      ensures RunsThrough(was + piece, size, eol)
    {
      var got := was + piece;
      assert got[..|was|] == was;
      forall m | 1 <= m < |got|
        ensures !StopsAt(got, m, size, eol)
      {
        EndsInPrefix(got, |was|, m, eol);
        assert !StopsAt(was, m, size, eol);
      }
    }

    /** Reads lines until a byte takes too long or the buffer is full.  The lines
        are the cuts of the bytes taken; with a terminator longer than the buffer
        a full buffer is dropped. */
    method ReadLines(size: nat, eol: string) returns (r: Result<seq<string>>, ghost got: string)
      requires Valid()
      modifies this`log, impl.os`script, impl.os`now, impl.os`last, impl.os`incoming, impl.os`delivered
      ensures Valid()
      ensures old(impl.os.incoming) == got + impl.os.incoming
      ensures impl.os.now >= old(impl.os.now)
      ensures log == old(log) + [Heard(got, r.Ok?, impl.os.now - old(impl.os.now))]
      ensures |got| <= size
      ensures r.Ok? ==>
                r.value == if |got| == size < |eol| then [] else AllLines(old(impl.os.incoming), |got|, eol)
    {
      hide SentBytes, HeardBytes, AllLines, CutLines, LastCut, SerialImpl.Valid;
      var buf := new char[size];
      ghost var stream := impl.os.incoming;
      var cuts;
      cuts, got := ReadCutting(buf, size, eol);
      ghost var e := Heard(got, cuts.Ok?, impl.os.now - old(impl.os.now));
      BytesSnoc(log, e);
      log := log + [e];
      if !cuts.Ok? {
        return cuts.PropagateFailure(), got;
      }
      var Cuts(n, start, lines) := cuts.value;
      NoCutsBeforeTerminator(stream, n, eol);
      // what is left is a line too, unless the buffer is full but so short that
      // the loop never got to look at it
      if n < size || |eol| <= size {
        lines := WithTail(buf, n, start, lines, eol, stream);
      }
      return Ok(lines), got;
    }

    /** The loop of `readlines`, up to its exit. */
    method ReadCutting(buf: array<char>, size: nat, eol: string)
      returns (r: Result<Cuts>, ghost got: string)
      requires impl.Valid() && buf.Length == size
      modifies buf, impl.os`script, impl.os`now, impl.os`last, impl.os`incoming, impl.os`delivered
      ensures impl.Valid() && impl.os.now >= old(impl.os.now)
      ensures old(impl.os.incoming) == got + impl.os.incoming
      ensures impl.os.delivered == old(impl.os.delivered) + got
      ensures |got| <= size && got == buf[..|got|]
      ensures r.Ok? ==> r.value.n == |got|
      ensures r.Ok? ==> r.value.start == LastCut(old(impl.os.incoming), |got|, eol)
      ensures r.Ok? ==> r.value.lines == CutLines(old(impl.os.incoming), |got|, eol)
    {
      var lines: seq<string> := [];
      var n, start := 0, 0;
      got := [];
      ghost var stream := impl.os.incoming;
      assert LastCut(stream, 0, eol) == 0 && CutLines(stream, 0, eol) == [];
      hide *;
      while n < size
        invariant n <= size && n <= |stream| && buf[..n] == stream[..n]
        invariant impl.os.incoming == stream[n..]
        invariant impl.os.delivered == old(impl.os.delivered) + stream[..n]
        invariant impl.Valid() && impl.os.now >= old(impl.os.now)
        invariant start == LastCut(stream, n, eol) && lines == CutLines(stream, n, eol)
        decreases |impl.os.script|
      {
        var count, m := StreamByte(buf, n, stream, old(impl.os.delivered));
        if !count.Ok? {
          return count.PropagateFailure(), stream[..m];
        }
        if count.value == 0 {
          break;
        }
        n := n + 1;
        start, lines := CutIfTerminated(buf, n, start, lines, eol, stream);
      }
      return Ok(Cuts(n, start, lines)), stream[..n];
    }

    /** One byte into the buffer, seen along the stream. */
    method StreamByte(buf: array<char>, n: nat, ghost stream: string, ghost before: string)
      returns (r: Result<nat>, ghost m: nat)
      requires impl.Valid() && n < buf.Length && n <= |stream| && buf[..n] == stream[..n]
      requires impl.os.incoming == stream[n..] && impl.os.delivered == before + stream[..n]
      modifies buf, impl.os`script, impl.os`now, impl.os`last, impl.os`incoming, impl.os`delivered
      ensures impl.Valid()
      ensures |impl.os.script| <= |old(impl.os.script)| && impl.os.now >= old(impl.os.now)
      ensures n <= m <= n + 1 && m <= |stream| && buf[..m] == stream[..m] && impl.os.incoming == stream[m..]
      ensures impl.os.delivered == before + stream[..m]
      ensures r.Ok? ==> r.value == m - n && |impl.os.script| < |old(impl.os.script)|
    {
      hide *;
      ghost var piece;
      r, piece := ReadByte(buf, n);
      NextPiece(stream, n, piece, impl.os.incoming);
      Associate(before, stream[..n], piece);
      m := n + |piece|;
    }

    static lemma NextPiece(stream: string, n: nat, piece: string, left: string)
      requires n <= |stream| && stream[n..] == piece + left
      ensures n + |piece| <= |stream|
      ensures stream[..n + |piece|] == stream[..n] + piece && left == stream[n + |piece|..]
    {
      var m := n + |piece|;
      assert stream == stream[..n] + stream[n..];
      assert stream == stream[..n] + piece + left;
    }

    /** The terminator test after the `n`-th byte. */
    static method CutIfTerminated(buf: array<char>, n: nat, start: nat, lines: seq<string>, eol: string,
                                  ghost stream: string) returns (start': nat, lines': seq<string>)
      requires 1 <= n <= buf.Length && n <= |stream| && buf[..n] == stream[..n]
      requires start == LastCut(stream, n - 1, eol) && lines == CutLines(stream, n - 1, eol)
      ensures start' == LastCut(stream, n, eol) && lines' == CutLines(stream, n, eol)
    {
      start', lines' := start, lines;
      if n < |eol| {
        return;
      }
      var found := SeesTerminator(buf, n, eol);
      EndsInPrefix(stream, n, n, eol);
      if found {
        assert buf[start..n] == buf[..n][start..] == stream[start..n];
        lines' := lines + [buf[start..n]];
        start' := n;
      }
    }

    static method WithTail(buf: array<char>, n: nat, start: nat, lines: seq<string>, eol: string,
                           ghost stream: string) returns (lines': seq<string>)
      requires n <= buf.Length && n <= |stream| && buf[..n] == stream[..n]
      requires start == LastCut(stream, n, eol) && lines == CutLines(stream, n, eol)
      ensures lines' == AllLines(stream, n, eol)
    {
      lines' := lines;
      if start != n {
        assert buf[start..n] == buf[..n][start..] == stream[start..n];
        lines' := lines + [buf[start..n]];
      }
    }

    static lemma {:induction false} NoCutsBeforeTerminator(s: string, n: nat, eol: string)
      requires n <= |s|
      ensures n < |eol| ==> CutLines(s, n, eol) == [] && LastCut(s, n, eol) == 0
    {
      if 0 < n {
        NoCutsBeforeTerminator(s, n - 1, eol);
      }
    }

    /** `setPort`: an open port is closed and reopened on the new path. */
    method SetPort(path: string) returns (r: Result<()>)
      requires Valid()
      modifies impl, impl.os`script, impl.os`now, impl.os`last, impl.os`live, impl.os`opens
      ensures Valid()
      ensures r.Ok? ==> impl.isOpen == old(impl.isOpen) && impl.path == path
      ensures impl.timeout == old(impl.timeout)
    {
      var wasOpen := impl.isOpen;
      if wasOpen {
        var _ :- impl.Close();
      }
      impl.path := path;
      if wasOpen {
        var _ :- impl.Open();
      }
      return Ok(());
    }

    /** One client call, whatever its outcome. */
    method Perform(call: Call)
      requires Valid()
      modifies this`log, impl, impl.os
      ensures Valid()
      ensures impl.timeout == old(impl.timeout)
    {
      match call {
        case CallOpen => var _ := impl.Open();
        case CallClose => var _ := impl.Close();
        case CallFlushInput => var _ := impl.FlushInput();
        case CallFlushOutput => var _ := impl.FlushOutput();
        case CallSetPort(path) => var _ := SetPort(path);
        case CallWrite(data) => var _, _ := Write(data);
        case CallReadLine(size, eol) =>
          if 1 <= size && |eol| <= size {
            var _, _, _ := ReadLine("", size, eol);
          }
        case CallReadLines(size, eol) => var _, _ := ReadLines(size, eol);
      }
    }

    /** Over every sequence of calls and every kernel behaviour an open port has
        a live descriptor, system calls touch live descriptors only, and the log
        accounts for every byte. */
    method Drive(calls: seq<Call>)
      requires Valid()
      modifies this`log, impl, impl.os
      ensures Valid()
    {
      for i := 0 to |calls|
        invariant Valid()
      {
        Perform(calls[i]);
      }
    }
  }
}
