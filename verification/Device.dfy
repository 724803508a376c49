/** A device on a serial line: framed commands, framed answers, reset and retry. */
module DeviceLine {
  import opened Outcome
  import opened Kernel
  import opened UnixPort
  import opened Lines
  import opened SerialPort

  const MAX_LINE: nat := 0xFFFF

  // -------------------------------------------------------------------------
  // What a retried command leaves in the log
  // -------------------------------------------------------------------------

  /** One write of `msg`, complete or cut short. */
  predicate Attempt(e: Event, msg: string, whole: bool) {
    e.Sent? && e.msg == msg && (if whole then e.n == |msg| else e.n < |msg|)
  }

  /** The transfers of one command with at most one retry: a second write follows
      only a reset, which follows only a write that was cut short. */
  predicate RetryTrace(t: seq<Event>, msg: string, done: bool) {
    || (t == [] && !done)
    || (|t| == 1 && Attempt(t[0], msg, done))
    || (|t| == 2 && Attempt(t[0], msg, false) && t[1] == Reset && !done)
    || (|t| == 3 && Attempt(t[0], msg, false) && t[1] == Reset && Attempt(t[2], msg, done))
  }

  lemma {:induction false} SentBytesAppend(log: seq<Event>, t: seq<Event>)
    ensures SentBytes(log + t) == SentBytes(log) + SentBytes(t)
  {
    assert SentBytes([]) == [];
    hide *;
    if t == [] {
      assert log + t == log;
    } else {
      var k := |t| - 1;
      SentBytesAppend(log, t[..k]);
      assert t == t[..k] + [t[k]];
      assert log + t == (log + t[..k]) + [t[k]];
      BytesSnoc(log + t[..k], t[k]);
      BytesSnoc(t[..k], t[k]);
      Associate(SentBytes(log), SentBytes(t[..k]), EventBytes(t[k]));
    }
  }

  /** Resets and writes of `msg` that were cut short. */
  predicate OnlyPieces(t: seq<Event>, msg: string) {
    forall i :: 0 <= i < |t| ==> t[i] == Reset || Attempt(t[i], msg, false)
  }

  lemma {:induction false} PiecesHoldNoTerminator(t: seq<Event>, body: string, term: char)
    requires OnlyPieces(t, body + [term]) && term !in body
    ensures term !in SentBytes(t)
  {
    if t != [] {
      var k := |t| - 1;
      PiecesHoldNoTerminator(t[..k], body, term);
      assert t == t[..k] + [t[k]];
      BytesSnoc(t[..k], t[k]);
      hide SentBytes;
      if t[k] != Reset {
        PieceOfBody(t[k], body, term);
      }
    }
  }

  lemma PieceOfBody(e: Event, body: string, term: char)
    requires Attempt(e, body + [term], false)
    ensures EventBytes(e) <= body
  {
    assert (body + [term])[..e.n] == body[..e.n];
  }

  /** One whole message, behind at most a piece of its own body. */
  ghost predicate BehindPiece(bytes: string, body: string, term: char) {
    exists p :: p <= body && bytes == p + body + [term]
  }

  /** At-most-once delivery.  A command whose body is free of the terminator
      hands the kernel exactly one terminator when the command succeeds and none
      when it does not, however the writes were cut.  On success the frame the
      device sees is the command behind what the first write got through. */
  lemma AtMostOnce(t: seq<Event>, body: string, term: char, done: bool)
    requires RetryTrace(t, body + [term], done)
    requires term !in body
    ensures multiset(SentBytes(t))[term] == if done then 1 else 0
    ensures done ==> BehindPiece(SentBytes(t), body, term)
    ensures done && |t| == 1 ==> SentBytes(t) == body + [term]
  {
    hide *;
    if done {
      var p, last := DoneShape(t, body + [term]);
      PiecesHoldNoTerminator(p, body, term);
      RetriedPrefix(p, body, term);
      WholeBytes(p, last, body + [term]);
      OneTerminator(SentBytes(p), body, term);
      PieceThenWhole(SentBytes(p), body, term);
    } else {
      NotDoneShape(t, body + [term]);
      PiecesHoldNoTerminator(t, body, term);
    }
  }

  lemma DoneShape(t: seq<Event>, msg: string) returns (p: seq<Event>, last: Event)
    requires RetryTrace(t, msg, true)
    ensures t == p + [last] && Attempt(last, msg, true) && OnlyPieces(p, msg)
    ensures p == [] || (|p| == 2 && Attempt(p[0], msg, false) && p[1] == Reset)
  {
    p, last := t[..|t| - 1], t[|t| - 1];
  }

  lemma NotDoneShape(t: seq<Event>, msg: string)
    requires RetryTrace(t, msg, false)
    ensures OnlyPieces(t, msg)
  {
  }

  lemma WholeBytes(p: seq<Event>, last: Event, msg: string)
    requires Attempt(last, msg, true)
    ensures SentBytes(p + [last]) == SentBytes(p) + msg
  {
    BytesSnoc(p, last);
    assert EventBytes(last) == msg;
  }

  lemma PieceThenWhole(p: string, body: string, term: char)
    requires p <= body
    ensures BehindPiece(p + (body + [term]), body, term)
  {
    assert p + (body + [term]) == p + body + [term];
  }

  lemma OneTerminator(p: string, body: string, term: char)
    requires term !in p && term !in body
    ensures p + (body + [term]) == p + body + [term]
    ensures multiset(p + (body + [term]))[term] == 1
  {
    assert p + (body + [term]) == p + body + [term];
    assert multiset(p)[term] == 0 && multiset(body)[term] == 0;
  }

  /** What precedes the complete write is nothing or one piece of the body. */
  lemma RetriedPrefix(p: seq<Event>, body: string, term: char)
    requires p == [] || (|p| == 2 && Attempt(p[0], body + [term], false) && p[1] == Reset)
    ensures SentBytes(p) <= body
    ensures p == [] ==> SentBytes(p) == []
  {
    assert SentBytes([]) == [] && EventBytes(Reset) == [];
    if p != [] {
      assert p == [p[0], Reset];
      hide *;
      PieceOfBody(p[0], body, term);
      TwoEventBytes(p[0], Reset);
      assert EventBytes(p[0]) + [] == EventBytes(p[0]);
    }
  }

  lemma TwoEventBytes(a: Event, b: Event)
    ensures SentBytes([a, b]) == EventBytes(a) + EventBytes(b)
  {
    assert SentBytes([]) == [];
    hide *;
    BytesSnoc([], a);
    BytesSnoc([a], b);
    assert [] + [a] == [a] && [a] + [b] == [a, b];
    assert [] + EventBytes(a) == EventBytes(a);
  }

  /** Behind `before` comes a write of `msg`, first of all. */
  predicate Offers(before: seq<Event>, after: seq<Event>, msg: string) {
    before < after && after[|before|].Sent? && after[|before|].msg == msg
  }

  lemma RetryOffers(before: seq<Event>, w: seq<Event>, msg: string, done: bool)
    requires RetryTrace(w, msg, done) && w != []
    ensures Offers(before, before + w, msg)
  {
  }

  lemma OffersStill(before: seq<Event>, after: seq<Event>, more: seq<Event>, msg: string)
    requires Offers(before, after, msg) && after <= more
    ensures Offers(before, more, msg)
  {
  }

  // -------------------------------------------------------------------------
  // What a read with one retry leaves in the log
  // -------------------------------------------------------------------------

  /** The reads of a query: a second one follows only a reset, which follows exactly
      a first one that brought nothing. */
  predicate ListenTrace(t: seq<Event>) {
    || t == []
    || (|t| == 1 && t[0].Heard? && (t[0].ok ==> t[0].bytes != []))
    || (|t| == 2 && Silent(t[0]) && t[1] == Reset)
    || (|t| == 3 && Silent(t[0]) && t[1] == Reset && t[2].Heard?)
  }

  predicate Silent(e: Event) {
    e.Heard? && e.ok && e.bytes == []
  }

  /** The last read brought something. */
  predicate GotLines(t: seq<Event>) {
    t != [] && t[|t| - 1].Heard? && t[|t| - 1].ok && t[|t| - 1].bytes != []
  }

  function Got(t: seq<Event>): string {
    if GotLines(t) then t[|t| - 1].bytes else []
  }

  // -------------------------------------------------------------------------
  // The device
  // -------------------------------------------------------------------------

  class Device {
    const serial: Serial
    const pre: string      // in front of every command
    const sfx: string      // behind every command
    const readSfx: string  // behind every answer

    ghost predicate Valid()
      reads serial, serial.impl, serial.impl.os
    {
      serial.Valid() && |readSfx| <= MAX_LINE
    }

    constructor (serial: Serial, pre: string, sfx: string, readSfx: string)
      requires serial.Valid() && |readSfx| <= MAX_LINE
      ensures Valid()
      ensures this.serial == serial && this.pre == pre && this.sfx == sfx && this.readSfx == readSfx
    {
      this.serial, this.pre, this.sfx, this.readSfx := serial, pre, sfx, readSfx;
    }

    /** The port is open and the kernel will refuse the next message. */
    predicate Refused()
      reads serial.impl, serial.impl.os
    {
      serial.impl.isOpen && RefusesMessage(serial.impl.os.script)
    }

    /** The port is open, and the next message goes to a kernel that takes some of it
        and, if that is not all, is given no time to take more. */
    ghost predicate Impatient(length: nat)
      reads serial.impl, serial.impl.os
    {
      && serial.impl.isOpen && length > 0 && TakesMessage(serial.impl.os.script)
      && (WriteBudget(serial.impl.timeout, length) == 0 || serial.impl.os.script[3].ret >= length)
    }

    /** The port is open, the kernel takes whatever it is offered without delay, and
        there is time for a message of that length. */
    ghost predicate Willing(length: nat)
      reads serial.impl
    {
      serial.impl.isOpen && Prompt(serial.impl.os.tape) && WriteBudget(serial.impl.timeout, length) > 0
    }

    function Message(cmd: string): string {
      pre + cmd + sfx
    }

    /** Sends one command.  A closed port is reopened first.  The call makes at
        most one write, of the framed command; it returns true exactly when the
        kernel took all of it, and whenever it does not return true something of
        the message is missing. */
    method WriteCmd(cmd: string) returns (r: Result<bool>, ghost t: seq<Event>)
      requires Valid()
      modifies serial`log, serial.impl`fd, serial.impl`isOpen, serial.impl`leaked, serial.impl.os
      ensures r != Throw(RuntimeFault)
      ensures Valid()
      ensures |serial.impl.os.script| <= |old(serial.impl.os.script)|
      ensures serial.impl.os.now >= old(serial.impl.os.now)
      ensures serial.log == old(serial.log) + t
      ensures t == [] || (|t| == 1 && Attempt(t[0], Message(cmd), r == Ok(true)))
      ensures r.Ok? ==> |t| == 1 && serial.impl.isOpen
      ensures t != [] ==> serial.impl.os.flushes > old(serial.impl.os.flushes)
      ensures !old(serial.impl.isOpen) && t != [] ==> serial.impl.os.opens > old(serial.impl.os.opens)
      ensures !old(serial.impl.isOpen) && serial.impl.path != "" ==>
                serial.impl.os.opens > old(serial.impl.os.opens) || r.Cut?
      ensures old(Refused()) && Message(cmd) != [] ==>
                r == Throw(IoFault) && serial.impl.isOpen && serial.impl.os.script == old(serial.impl.os.script)[3..]
      ensures old(Impatient(|Message(cmd)|)) ==>
                && t == [Sent(Message(cmd), Taken(old(serial.impl.os.script), |Message(cmd)|))]
                && r == Ok(Taken(old(serial.impl.os.script), |Message(cmd)|) == |Message(cmd)|)
                && serial.impl.isOpen && serial.impl.os.script == old(serial.impl.os.script)[4..]
                && serial.impl.os.live == old(serial.impl.os.live)
      ensures t == [] ==> r.Cut? || (r.Throw? && !serial.impl.isOpen)
      ensures old(serial.impl.isOpen) ==> serial.impl.isOpen
      ensures old(Willing(|Message(cmd)|)) ==> r.Cut? || r == Ok(true)
    {
      hide SentBytes, HeardBytes;
      t := [];
      if !serial.impl.isOpen {
        var _ :- serial.impl.Open();
      }
      var _ :- serial.impl.FlushInput();
      var _ :- serial.impl.FlushOutput();
      var msg := Message(cmd);
      ghost var n;
      var written;
      written, n := serial.Write(msg);
      t := [Sent(msg, n)];
      if !written.Ok? {
        return written.PropagateFailure(), t;
      }
      return Ok(written.value == |msg|), t;
    }

    /** Reads one answer behind what `answer` already holds.  It counts when at
        least one byte and as many bytes as the suffix came in; then that many
        bytes are cut off the end, whether or not they are the suffix.  The
        code's branch for an answer shorter than the suffix is dead. */
    method ReadCmd(answer: string) returns (r: Result<bool>, out: string, ghost got: string)
      requires Valid()
      modifies serial`log, serial.impl.os`script, serial.impl.os`now, serial.impl.os`last, serial.impl.os`incoming
      modifies serial.impl.os`delivered
      ensures Valid()
      ensures |serial.impl.os.script| <= |old(serial.impl.os.script)|
      ensures r.Ok? ==> |serial.impl.os.script| < |old(serial.impl.os.script)|
      ensures old(serial.impl.os.incoming) == got + serial.impl.os.incoming
      ensures serial.impl.os.now >= old(serial.impl.os.now)
      ensures serial.log == old(serial.log) + [Heard(got, r.Ok?, serial.impl.os.now - old(serial.impl.os.now))]
      ensures |got| <= MAX_LINE && RunsThrough(got, MAX_LINE, readSfx)
      ensures r.Ok? ==> (r.value <==> |got| > 0 && |got| >= |readSfx|)
      ensures r == Ok(true) ==> out == (answer + got)[..|answer| + |got| - |readSfx|]
      ensures r == Ok(false) ==> out == answer + got
      ensures !r.Ok? ==> out == answer
      ensures r.Ok? && !StopsAt(got, |got|, MAX_LINE, readSfx) ==>
                serial.impl.os.now - old(serial.impl.os.now) > serial.ByteTime()
      ensures serial.impl.isOpen && old(serial.Served(MAX_LINE, readSfx)) ==>
                && r.Ok?
                && got == old(serial.impl.os.incoming)[..LineLength(old(serial.impl.os.incoming), 0, MAX_LINE, readSfx)]
      ensures r.Ok? ==> serial.impl.isOpen
    {
      hide SentBytes, HeardBytes;
      var nbytes;
      nbytes, out, got := serial.ReadLine(answer, MAX_LINE, readSfx);
      if !nbytes.Ok? {
        return nbytes.PropagateFailure(), out, got;
      }
      if nbytes.value == 0 || nbytes.value < |readSfx| {
        return Ok(false), out, got;
      }
      if |out| < |readSfx| {
        assert false;
      }
      out := out[..|out| - |readSfx|];
      return Ok(true), out, got;
    }

    /** Reads whatever lines come in before a byte takes too long. */
    method ReadLines() returns (r: Result<seq<string>>, ghost got: string)
      requires Valid()
      modifies serial`log, serial.impl.os`script, serial.impl.os`now, serial.impl.os`last, serial.impl.os`incoming
      modifies serial.impl.os`delivered
      ensures Valid()
      ensures old(serial.impl.os.incoming) == got + serial.impl.os.incoming
      ensures serial.impl.os.now >= old(serial.impl.os.now)
      ensures serial.log == old(serial.log) + [Heard(got, r.Ok?, serial.impl.os.now - old(serial.impl.os.now))]
      ensures |got| <= MAX_LINE
      ensures r.Ok? ==> r.value == AllLines(old(serial.impl.os.incoming), |got|, readSfx)
    {
      hide SentBytes, HeardBytes, AllLines;
      r, got := serial.ReadLines(MAX_LINE, readSfx);
    }

    /** The port is open, and closing, opening and configuring it work. */
    ghost predicate Reopens()
      reads serial.impl, serial.impl.os
    {
      && serial.impl.isOpen && serial.impl.path != "" && serial.impl.os.script != []
      && serial.impl.os.script[0].ret == 0 && Opens(serial.impl.os.script[1..], serial.impl.os.live)
    }

    /** Closes and reopens the port. */
    method ResetConnection() returns (r: Result<()>)
      requires Valid()
      modifies serial`log, serial.impl`fd, serial.impl`isOpen, serial.impl`leaked
      modifies serial.impl.os`script, serial.impl.os`now, serial.impl.os`last, serial.impl.os`live, serial.impl.os`opens
      ensures r != Throw(RuntimeFault)
      ensures Valid()
      ensures |serial.impl.os.script| <= |old(serial.impl.os.script)|
      ensures serial.impl.os.now >= old(serial.impl.os.now)
      ensures serial.log == old(serial.log) + [Reset]
      ensures r.Ok? ==> serial.impl.isOpen
      ensures !r.Ok? && serial.impl.isOpen ==>
                serial.impl.fd == old(serial.impl.fd) && serial.impl.os.live == old(serial.impl.os.live)
      ensures old(Reopens()) ==> r.Ok? && serial.impl.os.script == old(serial.impl.os.script)[3..]
    {
      BytesSnoc(serial.log, Reset);
      hide SentBytes, HeardBytes;
      serial.log := serial.log + [Reset];
      var _ :- serial.impl.Close();
      r := serial.impl.Open();
    }

    /** Closing, opening and configuring the port work, and then all of a message is
        taken. */
    static predicate Recovers(script: seq<Answer>, live: set<int>, length: nat) {
      && |script| >= 7 && script[0].ret == 0 && Opens(script[1..], live)
      && TakesMessage(script[3..]) && script[6].ret >= length
    }

    /** A kernel that takes a piece of the next message and, after a reset, all of it. */
    ghost predicate Garbles(length: nat)
      reads serial.impl, serial.impl.os
    {
      && Impatient(length) && serial.impl.os.script[3].ret < length && serial.impl.path != ""
      && Recovers(serial.impl.os.script[4..], serial.impl.os.live, length)
    }

    /** Sends a command; when its write was cut short and `repeat` is set, resets
        the connection and sends it once more. */
    method WriteRetrying(cmd: string, repeat: bool) returns (r: Result<bool>, ghost t: seq<Event>)
      requires Valid()
      modifies serial`log, serial.impl`fd, serial.impl`isOpen, serial.impl`leaked, serial.impl.os
      ensures r != Throw(RuntimeFault)
      ensures Valid()
      ensures |serial.impl.os.script| <= |old(serial.impl.os.script)|
      ensures serial.impl.os.now >= old(serial.impl.os.now)
      ensures serial.log == old(serial.log) + t
      ensures RetryTrace(t, Message(cmd), r == Ok(true))
      ensures !repeat ==> |t| <= 1
      ensures repeat && r == Ok(false) ==> |t| == 3
      ensures r.Ok? ==> serial.impl.isOpen && |t| % 2 == 1
      ensures t == [] ==> r.Cut? || (r.Throw? && !serial.impl.isOpen)
      ensures old(Refused()) && Message(cmd) != [] ==>
                r == Throw(IoFault) && serial.impl.isOpen && serial.impl.os.script == old(serial.impl.os.script)[3..]
      ensures old(Willing(|Message(cmd)|)) ==> r.Cut? || r == Ok(true)
      ensures repeat && old(Garbles(|Message(cmd)|)) ==>
                && r == Ok(true)
                && t == [Sent(Message(cmd), old(serial.impl.os.script)[3].ret), Reset,
                         Sent(Message(cmd), |Message(cmd)|)]
    {
      hide SentBytes, HeardBytes, RefusesMessage, Prompt, WriteBudget, Opens, Recovers, SerialImpl.Valid;
      r, t := WriteCmd(cmd);
      if r == Ok(false) && repeat {
        ghost var first, again := t, [];
        r, again := ResetAndWrite(cmd);
        t := first + again;
      }
    }

    method ResetAndWrite(cmd: string) returns (r: Result<bool>, ghost t: seq<Event>)
      requires Valid()
      modifies serial`log, serial.impl`fd, serial.impl`isOpen, serial.impl`leaked, serial.impl.os
      ensures r != Throw(RuntimeFault)
      ensures Valid()
      ensures |serial.impl.os.script| <= |old(serial.impl.os.script)|
      ensures serial.impl.os.now >= old(serial.impl.os.now)
      ensures serial.log == old(serial.log) + t
      ensures t == [Reset] || (|t| == 2 && t[0] == Reset && Attempt(t[1], Message(cmd), r == Ok(true)))
      ensures r.Ok? ==> |t| == 2 && serial.impl.isOpen
      ensures old(serial.impl.isOpen && serial.impl.path != "") && Message(cmd) != []
              && Recovers(old(serial.impl.os.script), old(serial.impl.os.live), |Message(cmd)|) ==>
                r == Ok(true) && t == [Reset, Sent(Message(cmd), |Message(cmd)|)]
    {
      hide SentBytes, HeardBytes, RefusesMessage, Prompt, WriteBudget, SerialImpl.Valid;
      t := [Reset];
      var _ :- ResetConnection();
      ghost var again;
      r, again := WriteCmd(cmd);
      t := [Reset] + again;
    }
  }
}
