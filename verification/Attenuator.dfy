/** The attenuator driver: framing with retry, position queries, motion, and the
    offset it keeps between the motor's counter and the optics. */
module AttenuatorDriver {
  import opened Outcome
  import opened Text
  import opened Decimal
  import opened Kernel
  import opened UnixPort
  import opened Lines
  import opened SerialPort
  import opened DeviceLine
  import opened Transcript
  import opened AttenuatorWire
  import opened AttenuatorStatus
  import opened MotorModel
  import opened Transmission
  import opened Frames

  const STOPPED: nat := 0

  /** The writes of one command, and where in the log they start. */
  datatype Try = Try(at: nat, w: seq<Event>)

  class Attenuator {
    const dev: Device
    const angle: real -> real   // acos(sqrt(t)), in degrees
    ghost const bias0: int      // physical minus counter position when the driver attached
    var offset: int
    var position: int
    var motorState: int
    var settings: Settings

    constructor (dev: Device, angle: real -> real, ghost bias: int)
      requires dev.Valid() && dev.pre == "" && dev.sfx == "\r" && dev.serial.log == []
      ensures Valid() && this.dev == dev && this.angle == angle && bias0 == bias
      ensures offset == 0 && position == 0 && motorState == STOPPED
    {
      this.dev, this.angle, bias0 := dev, angle, bias;
      offset, position, motorState := 0, 0, STOPPED;
      settings := Settings(1, STOPPED, 0, 0, 59000, 100, 10, 2, true, false, false);
    }

    ghost function Wire(): seq<Item>
      reads dev.serial
    {
      Digest(dev.serial.log)
    }

    ghost function TheMotor(): Motor
      reads dev.serial
    {
      MotorAfter(Wire(), bias0)
    }

    ghost predicate HonestMotor()
      reads dev.serial
    {
      Honest(Wire(), bias0)
    }

    /** The physical position aimed at for a given transmission is a constant of
        the optics plus this sum. */
    ghost function Ledger(): int
      reads this`offset, dev.serial
    {
      offset + TheMotor().bias
    }

    /** Where the motor physically stands or is going after a conversation, if known. */
    ghost function PhysicalAfter(d: seq<Item>): Option<int> {
      Place(MotorAfter(d, bias0))
    }

    static function Place(m: Motor): Option<int> {
      if m.rest.Some? then Some(m.rest.value + m.bias) else None
    }

    ghost function Physical(): Option<int>
      reads dev.serial
    {
      Place(TheMotor())
    }

    ghost predicate Ready()
      reads dev.serial, dev.serial.impl, dev.serial.impl.os
    {
      dev.Valid() && dev.pre == "" && dev.sfx == "\r"
    }

    /** Motion safety is part of the invariant, and so is that every write offered
        one framed message. */
    ghost predicate Valid()
      reads dev.serial, dev.serial.impl, dev.serial.impl.os
    {
      Ready() && Guarded(Wire()) && Framed(dev.serial.log, '\r')
    }

    /** How long the last read took. */
    ghost function LastSpan(): nat
      reads dev.serial
    {
      var log := dev.serial.log;
      if log != [] && log[|log| - 1].Heard? then log[|log| - 1].span else 0
    }

    /** The bytes of the last read end with the terminator, or came so fast that no
        byte can have been given up. */
    ghost predicate CameWhole(heard: string)
      reads dev.serial, dev.serial.impl`timeout
    {
      StopsAt(heard, |heard|, MAX_LINE, EOL) || LastSpan() <= dev.serial.ByteTime()
    }

    /** In every state the frames the device got are the messages of the
        conversation exactly when no write so far was cut in the middle. */
    lemma FramesIff()
      requires Valid()
      ensures Tokens(dev.serial.impl.os.accepted, "\r") == Bodies(Wire()) + [""] <==> NoPieces(dev.serial.log)
    {
      FramesAreMessagesIff(dev.serial.log, '\r');
    }

    // -----------------------------------------------------------------------
    // Framing
    // -----------------------------------------------------------------------

    /** Sends a command, once more after a reset if the first write was cut
        short.  The command is on the wire whole exactly when true is returned.
        For a command free of the terminator the kernel takes exactly one
        terminator then, and none otherwise: no command is delivered twice. */
    method WriteCmd(cmd: string, repeat: bool) returns (r: Result<bool>, ghost sent: string, ghost w: seq<Event>)
      requires Ready()
      modifies dev.serial`log, dev.serial.impl`fd, dev.serial.impl`isOpen, dev.serial.impl`leaked, dev.serial.impl.os
      ensures Ready()
      ensures |dev.serial.impl.os.script| <= |old(dev.serial.impl.os.script)|
      ensures dev.serial.impl.os.now >= old(dev.serial.impl.os.now)
      ensures Wire() == old(Wire()) + (if r == Ok(true) then [Msg(cmd + "\r")] else [])
      ensures dev.serial.impl.os.accepted == old(dev.serial.impl.os.accepted) + sent
      ensures '\r' !in cmd ==> multiset(sent)['\r'] == if r == Ok(true) then 1 else 0
      ensures '\r' !in cmd && r == Ok(true) ==> BehindPiece(sent, cmd, '\r')
      ensures '\r' !in cmd && old(Framed(dev.serial.log, '\r')) ==> Framed(dev.serial.log, '\r')
      ensures dev.serial.log == old(dev.serial.log) + w && RetryTrace(w, cmd + "\r", r == Ok(true))
      ensures sent == SentBytes(w) && r != Throw(RuntimeFault)
      ensures r == Ok(false) ==> |w| == if repeat then 3 else 1
      ensures w == [] ==> r.Cut? || (r.Throw? && !dev.serial.impl.isOpen)
      ensures r.Ok? ==> dev.serial.impl.isOpen
      ensures old(dev.Willing(|cmd| + 1)) ==> r.Cut? || r == Ok(true)
    {
      hide Digest, SentBytes, HeardBytes, RetryTrace, Framed, Device.Willing, Device.Garbles, Device.Refused;
      hide SerialImpl.Valid;
      ghost var before := dev.serial.log;
      ghost var t;
      assert dev.Message(cmd) == cmd + "\r";
      r, t := dev.WriteRetrying(cmd, repeat);
      w := t;
      RetryDigest(t, cmd + "\r", r == Ok(true));
      DigestAppend(before, t);
      SentBytesAppend(before, t);
      sent := SentBytes(t);
      if '\r' !in cmd {
        AtMostOnce(t, cmd, '\r', r == Ok(true));
        RetryFramed(t, cmd, '\r', r == Ok(true));
        if Framed(before, '\r') {
          FramedAppend(before, t, '\r');
        }
      }
    }

    /** Reads one answer behind what `answer` holds; an empty read is retried
        once after a reset.  `heard` is what the last read took off `stream`, `t` what
        the call leaves in the log. */
    method ReadCmd(answer: string, repeat: bool)
      returns (r: Result<bool>, out: string, ghost heard: string, ghost stream: string, ghost t: seq<Event>)
      requires Ready()
      modifies dev.serial`log, dev.serial.impl`fd, dev.serial.impl`isOpen, dev.serial.impl`leaked, dev.serial.impl.os
      ensures Ready()
      ensures |dev.serial.impl.os.script| <= |old(dev.serial.impl.os.script)|
      ensures r.Ok? ==> |dev.serial.impl.os.script| < |old(dev.serial.impl.os.script)|
      ensures stream == old(dev.serial.impl.os.incoming) == heard + dev.serial.impl.os.incoming
      ensures RunsThrough(heard, MAX_LINE, EOL)
      ensures Wire() == old(Wire()) + (if r.Ok? && heard != [] then [Line(heard)] else [])
      ensures dev.serial.impl.os.accepted == old(dev.serial.impl.os.accepted)
      ensures old(Framed(dev.serial.log, '\r')) ==> Framed(dev.serial.log, '\r')
      ensures r.Ok? ==> (r.value <==> |heard| >= 2)
      ensures r == Ok(true) ==> out == (answer + heard)[..|answer| + |heard| - 2]
      ensures dev.serial.impl.os.now >= old(dev.serial.impl.os.now)
      ensures dev.serial.log == old(dev.serial.log) + t && t != []
      ensures if repeat then ListenTrace(t) else |t| == 1 && t[0].Heard?
      ensures r.Ok? ==> t[|t| - 1] == Heard(heard, true, LastSpan()) && dev.serial.impl.isOpen
      ensures repeat && r.Ok? && heard == [] ==> |t| == 3 && Silent(t[0]) && t[1] == Reset && Silent(t[2])
      ensures old(dev.serial.impl.isOpen && dev.serial.Served(MAX_LINE, EOL)) ==>
                r.Ok? && heard == stream[..LineLength(stream, 0, MAX_LINE, EOL)] && |t| == 1
      ensures r.Ok? ==> LastSpan() <= dev.serial.impl.os.now - old(dev.serial.impl.os.now)
      ensures r.Ok? && CameWhole(heard) ==> StopsAt(heard, |heard|, MAX_LINE, EOL)
      decreases repeat
    {
      hide Digest, SentBytes, HeardBytes, RunsThrough, StopsAt, Framed, LineLength, Serial.Served, SerialImpl.Valid;
      ghost var before := dev.serial.log;
      stream := dev.serial.impl.os.incoming;
      var nbytes;
      LinesHaveBytes(stream);
      nbytes, out, heard := dev.serial.ReadLine(answer, MAX_LINE, EOL);
      ghost var e := dev.serial.log[|dev.serial.log| - 1];
      HeardDigest(before, heard, nbytes.Ok?, e.span);
      QuietFramed(before, e, '\r');
      t := [e];
      if !nbytes.Ok? {
        return nbytes.PropagateFailure(), out, heard, stream, t;
      }
      if nbytes.value == 0 {
        if !repeat {
          return Ok(false), out, heard, stream, t;
        }
        ResetDigest(dev.serial.log);
        QuietFramed(dev.serial.log, Reset, '\r');
        t := [e, Reset];
        var reset := dev.ResetConnection();
        if !reset.Ok? {
          return reset.PropagateFailure(), out, heard, stream, t;
        }
        assert answer + heard == answer;
        ghost var again;
        r, out, heard, stream, again := ReadCmd(out, false);
        t := [e, Reset] + again;
        return;
      }
      if nbytes.value < 2 {
        return Ok(false), out, heard, stream, t;
      }
      out := out[..|out| - 2];
      return Ok(true), out, heard, stream, t;
    }

    lemma LinesHaveBytes(stream: string)
      ensures stream == dev.serial.impl.os.incoming && dev.serial.Served(MAX_LINE, EOL) ==>
                LineLength(stream, 0, MAX_LINE, EOL) > 0
    {
    }

    static lemma HeardDigest(log: seq<Event>, heard: string, ok: bool, span: nat)
      ensures Digest(log + [Heard(heard, ok, span)]) == Digest(log) + (if ok && heard != [] then [Line(heard)] else [])
    {
      DigestSnoc(log, Heard(heard, ok, span));
    }

    static lemma ResetDigest(log: seq<Event>)
      ensures Digest(log + [Reset]) == Digest(log)
    {
      DigestSnoc(log, Reset);
    }

    // -----------------------------------------------------------------------
    // Position queries
    // -----------------------------------------------------------------------

    /** Query, answer, and the driver's reading of it. */
    method Exchange(pos0: int)
      returns (r: Result<nat>, pos: int, ghost q: seq<Item>, ghost heard: string)
      requires Ready()
      modifies dev.serial`log, dev.serial.impl`fd, dev.serial.impl`isOpen, dev.serial.impl`leaked, dev.serial.impl.os
      ensures Ready()
      ensures |dev.serial.impl.os.script| <= |old(dev.serial.impl.os.script)|
      ensures r.Ok? ==> |dev.serial.impl.os.script| < |old(dev.serial.impl.os.script)|
      ensures Wire() == old(Wire()) + q && QueryShape(q)
      ensures old(Framed(dev.serial.log, '\r')) ==> Framed(dev.serial.log, '\r')
      ensures RunsThrough(heard, MAX_LINE, EOL)
      ensures |q| == 2 ==> q[1] == Line(heard)
      ensures r.Ok? ==> |q| == 2 && Report(heard) == Some(Reply(r.value, pos))
      ensures !r.Ok? && |q| == 2 ==> Report(heard) == None
      ensures dev.serial.impl.os.now >= old(dev.serial.impl.os.now)
      ensures |q| == 2 && CameWhole(heard) ==> StopsAt(heard, |heard|, MAX_LINE, EOL)
      ensures old(dev.serial.log) <= dev.serial.log
      ensures Offers(old(dev.serial.log), dev.serial.log, "o\r") || r.Cut? || (r.Throw? && !dev.serial.impl.isOpen)
      ensures |q| == 2 ==> dev.serial.impl.isOpen
    {
      hide Digest, SentBytes, HeardBytes, PositionField, StatusField, StopsAt, Framed, CameWhole;
      assert "o" + "\r" == "o\r";
      pos, q, heard := pos0, [], [];
      var sent, _, w := WriteCmd("o", true);
      if w != [] {
        RetryOffers(old(dev.serial.log), w, "o\r", sent == Ok(true));
      }
      if !sent.Ok? {
        return sent.PropagateFailure(), pos, q, heard;
      }
      if !sent.value {
        return Throw(IoFault), pos, q, heard;
      }
      q := [Msg("o\r")];
      ghost var wire := Wire();
      assert wire == old(Wire()) + q;
      ghost var stream, trace;
      var got, resp;
      got, resp, heard, stream, trace := ReadCmd("", true);
      if got.Ok? && heard != [] {
        q := [Msg("o\r"), Line(heard)];
      }
      assert wire + [Line(heard)] == old(Wire()) + [Msg("o\r"), Line(heard)];
      assert wire + [] == wire;
      hide RunsThrough;
      if !got.Ok? {
        return got.PropagateFailure(), pos, q, heard;
      }
      if !got.value {
        return Throw(IoFault), pos, q, heard;
      }
      assert resp == heard[..|heard| - 2];
      var p := PositionField(resp);
      if !p.Ok? {
        return p.PropagateFailure(), pos, q, heard;
      }
      pos := p.value;
      r := StatusField(resp);
    }

    /** One exchange of the position query.  In particular, if what the device had
        for the read starts with the reply to the query, and the line came in whole,
        that reply is what is returned. */
    method QueryPosition(pos0: int)
      returns (r: Result<nat>, pos: int, ghost q: seq<Item>, ghost heard: string)
      requires Valid()
      modifies dev.serial`log, dev.serial.impl`fd, dev.serial.impl`isOpen, dev.serial.impl`leaked, dev.serial.impl.os
      ensures Valid()
      ensures |dev.serial.impl.os.script| <= |old(dev.serial.impl.os.script)|
      ensures r.Ok? ==> |dev.serial.impl.os.script| < |old(dev.serial.impl.os.script)|
      ensures Wire() == old(Wire()) + q && QueryShape(q)
      ensures RunsThrough(heard, MAX_LINE, EOL)
      ensures |q| == 2 ==> q[1] == Line(heard)
      ensures r.Ok? ==> |q| == 2 && Report(heard) == Some(Reply(r.value, pos))
      ensures !r.Ok? && |q| == 2 ==> Report(heard) == None
      ensures dev.serial.impl.os.now >= old(dev.serial.impl.os.now)
      ensures ReadsBack(q, r, pos)
      ensures old(dev.serial.log) <= dev.serial.log
      ensures Offers(old(dev.serial.log), dev.serial.log, "o\r") || r.Cut? || (r.Throw? && !dev.serial.impl.isOpen)
      ensures |q| == 2 ==> dev.serial.impl.isOpen
    {
      hide Digest, SentBytes, HeardBytes, Guarded, Report, RunsThrough, QueryShape, Replied, StopsAt, Framed, CameWhole;
      ghost var wire := Wire();
      r, pos, q, heard := Exchange(pos0);
      QueryGuarded(wire, q);
      forall s, p, rest | 0 <= s < 10 && IsInt32(p) && Replied(heard + dev.serial.impl.os.incoming, s, p, rest)
                          && |q| == 2 && CameWhole(heard)
        ensures r == Ok(s) && pos == p
      {
        ReadBackWhole(heard + dev.serial.impl.os.incoming, heard, s, p, rest);
      }
    }

    /** What the device had when the answer was read, the answer and what is still
        to come, starts with a reply to the query: then that reply is the result,
        if the line came in whole. */
    ghost predicate ReadsBack(q: seq<Item>, r: Result<nat>, pos: int)
      reads dev.serial, dev.serial.impl`timeout, dev.serial.impl.os`incoming
    {
      |q| == 2 && q[1].Line? && CameWhole(q[1].bytes) ==>
        forall s, p, rest | 0 <= s < 10 && IsInt32(p) ::
          Replied(q[1].bytes + dev.serial.impl.os.incoming, s, p, rest) ==> r == Ok(s) && pos == p
    }

    /** `get_position`: one exchange, or with `wait` as many as it takes until the
        status is 0; none follows a status 0.  What is returned comes from the last
        exchange, and is the device's reply if that came in whole.  The motor's
        resting place is disturbed by none of this, and an honest motor that says
        "stopped" has said where it rests. */
    method GetPosition(pos0: int, wait: bool) returns (r: Result<nat>, pos: int, ghost qs: seq<seq<Item>>)
      requires Valid()
      modifies dev.serial`log, dev.serial.impl`fd, dev.serial.impl`isOpen, dev.serial.impl`leaked, dev.serial.impl.os
      ensures Valid()
      ensures |dev.serial.impl.os.script| <= |old(dev.serial.impl.os.script)|
      ensures Wire() == old(Wire()) + Flat(qs) && Polling(qs) && (!wait ==> |qs| == 1)
      ensures r.Ok? <==> if wait then SaysStopped(Last(qs)) else Spoke(Last(qs))
      ensures r.Ok? ==> Answered(Wire(), r.value, pos) && (r.value == STOPPED <==> SaysStopped(Last(qs)))
      ensures ReadsBack(Last(qs), r, pos)
      ensures HonestMotor() ==> old(HonestMotor())
      ensures TheMotor().bias == old(TheMotor().bias)
      ensures r == Ok(STOPPED) ==>
                TheMotor().rest.Some? && (old(TheMotor().rest).Some? ==> TheMotor() == old(TheMotor()))
      ensures r == Ok(STOPPED) && HonestMotor() ==> TheMotor().rest == Some(pos)
      ensures r != Ok(STOPPED) ==> TheMotor() == old(TheMotor())
      ensures old(dev.serial.log) <= dev.serial.log
      ensures Offers(old(dev.serial.log), dev.serial.log, "o\r") || r.Cut? || (r.Throw? && !dev.serial.impl.isOpen)
      ensures r.Ok? ==> dev.serial.impl.isOpen
    {
      hide *;
      ghost var q;
      r, pos, q := Poll(pos0);
      qs := [q];
      PollingOnce(q);
      if wait {
        while r.Ok? && r.value != STOPPED
          invariant Valid()
          invariant |dev.serial.impl.os.script| <= |old(dev.serial.impl.os.script)|
          invariant Wire() == old(Wire()) + Flat(qs) && Polling(qs) && qs != [] && Last(qs) == q
          invariant (r.Ok? <==> Spoke(q)) && (SaysStopped(q) ==> r.Ok?)
          invariant r.Ok? ==> Answered(Wire(), r.value, pos) && (r.value == STOPPED <==> SaysStopped(q))
          invariant ReadsBack(q, r, pos)
          invariant old(dev.serial.log) <= dev.serial.log && (r.Ok? ==> dev.serial.impl.isOpen)
          invariant Offers(old(dev.serial.log), dev.serial.log, "o\r") || r.Cut? ||
                    (r.Throw? && !dev.serial.impl.isOpen)
          invariant HonestMotor() ==> old(HonestMotor())
          invariant TheMotor().bias == old(TheMotor().bias)
          invariant r == Ok(STOPPED) ==>
                      TheMotor().rest.Some? && (old(TheMotor().rest).Some? ==> TheMotor() == old(TheMotor()))
          invariant r == Ok(STOPPED) && HonestMotor() ==> TheMotor().rest == Some(pos)
          invariant r != Ok(STOPPED) ==> TheMotor() == old(TheMotor())
          decreases r.Ok?, |dev.serial.impl.os.script|
        {
          ghost var before, log := qs, dev.serial.log;
          r, pos, q := Poll(pos);
          OffersStill(old(dev.serial.log), log, dev.serial.log, "o\r");
          PollingAgain(old(Wire()), before, q);
          qs := before + [q];
        }
      }
    }

    /** One poll and what it says about the motor. */
    method Poll(pos0: int) returns (r: Result<nat>, pos: int, ghost q: seq<Item>)
      requires Valid()
      modifies dev.serial`log, dev.serial.impl`fd, dev.serial.impl`isOpen, dev.serial.impl`leaked, dev.serial.impl.os
      ensures Valid()
      ensures |dev.serial.impl.os.script| <= |old(dev.serial.impl.os.script)|
      ensures r.Ok? ==> |dev.serial.impl.os.script| < |old(dev.serial.impl.os.script)|
      ensures Wire() == old(Wire()) + q && QueryShape(q)
      ensures (r.Ok? <==> Spoke(q)) && (SaysStopped(q) ==> r.Ok?)
      ensures r.Ok? ==> Answered(Wire(), r.value, pos) && (r.value == STOPPED <==> SaysStopped(q))
      ensures ReadsBack(q, r, pos)
      ensures HonestMotor() ==> old(HonestMotor())
      ensures TheMotor().bias == old(TheMotor().bias)
      ensures r == Ok(STOPPED) ==>
                TheMotor().rest.Some? && (old(TheMotor().rest).Some? ==> TheMotor() == old(TheMotor()))
      ensures r == Ok(STOPPED) && HonestMotor() ==> TheMotor().rest == Some(pos)
      ensures r != Ok(STOPPED) ==> TheMotor() == old(TheMotor())
      ensures old(dev.serial.log) <= dev.serial.log
      ensures Offers(old(dev.serial.log), dev.serial.log, "o\r") || r.Cut? || (r.Throw? && !dev.serial.impl.isOpen)
      ensures r.Ok? ==> dev.serial.impl.isOpen
    {
      hide Digest, MotorAfter, Honest, Guarded, Report, QueryShape, Answered, RunsThrough, ReadsBack;
      hide Spoke, SaysStopped, Framed;
      ghost var wire := Wire();
      ghost var heard;
      r, pos, q, heard := QueryPosition(pos0);
      QueryEffect(wire, q, bias0);
      SpokeStatus(q);
      if r.Ok? {
        AnsweredNow(wire, q, r.value, pos);
      }
    }

    /** `refresh_position`. */
    method RefreshPosition() returns (r: Result<()>, ghost q: seq<Item>)
      requires Valid()
      modifies this`position, this`motorState
      modifies dev.serial`log, dev.serial.impl`fd, dev.serial.impl`isOpen, dev.serial.impl`leaked, dev.serial.impl.os
      ensures Valid()
      ensures HonestMotor() ==> old(HonestMotor())
      ensures TheMotor().bias == old(TheMotor().bias)
      ensures Wire() == old(Wire()) + q && QueryShape(q)
      ensures r.Ok? <==> Spoke(q)
      ensures r.Ok? ==> Answered(Wire(), motorState, position) && (motorState == STOPPED <==> SaysStopped(q))
      ensures old(TheMotor().rest).Some? ==> TheMotor() == old(TheMotor())
      ensures !r.Ok? ==> motorState == old(motorState) && TheMotor() == old(TheMotor())
      ensures r.Ok? && motorState == STOPPED && HonestMotor() ==> TheMotor().rest == Some(position)
      ensures old(dev.serial.log) <= dev.serial.log
      ensures Offers(old(dev.serial.log), dev.serial.log, "o\r") || r.Cut? || (r.Throw? && !dev.serial.impl.isOpen)
      ensures r.Ok? ==> dev.serial.impl.isOpen
    {
      hide Wire, TheMotor, HonestMotor, Valid, Ready, Answered, ReadsBack, Flat, Polling, Last, Spoke, SaysStopped;
      hide QueryShape;
      var status, pos, qs := GetPosition(position, false);
      q := qs[0];
      OnlyPoll(qs);
      position := pos;
      if !status.Ok? {
        return status.PropagateFailure(), q;
      }
      motorState := status.value;
      return Ok(()), q;
    }

    // -----------------------------------------------------------------------
    // Motion
    // -----------------------------------------------------------------------

    /** The check in front of every motion command: it passes exactly when the
        motor has just reported that it is stopped, and where. */
    method RequireStopped() returns (r: Result<()>, ghost q: seq<Item>)
      requires Valid()
      modifies this`position, this`motorState
      modifies dev.serial`log, dev.serial.impl`fd, dev.serial.impl`isOpen, dev.serial.impl`leaked, dev.serial.impl.os
      ensures Valid()
      ensures HonestMotor() ==> old(HonestMotor())
      ensures TheMotor().bias == old(TheMotor().bias)
      ensures Wire() == old(Wire()) + q && QueryShape(q)
      ensures r.Ok? <==> SaysStopped(q)
      ensures old(TheMotor().rest).Some? ==> TheMotor() == old(TheMotor())
      ensures r.Ok? ==> EndsStopped(Wire()) && motorState == STOPPED
      ensures r.Ok? && HonestMotor() ==> TheMotor().rest == Some(position)
      ensures old(dev.serial.log) <= dev.serial.log
      ensures Offers(old(dev.serial.log), dev.serial.log, "o\r") || r.Cut? || (r.Throw? && !dev.serial.impl.isOpen)
      ensures r.Ok? ==> dev.serial.impl.isOpen
      ensures Spoke(q) && !SaysStopped(q) ==> r == Throw(RuntimeFault)
    {
      hide Wire, TheMotor, HonestMotor, Valid, Ready, Answered, EndsStopped, Spoke, SaysStopped, QueryShape;
      var refreshed;
      refreshed, q := RefreshPosition();
      SpokeStatus(q);
      EndsWithStopped(old(Wire()), q);
      if !refreshed.Ok? {
        return refreshed, q;
      }
      if motorState != STOPPED {
        return Throw(RuntimeFault), q;
      }
      return Ok(()), q;
    }

    /** Sends a motion command, or any command that is not one. */
    method Issue(text: string) returns (r: Result<()>, ghost w: seq<Event>)
      requires Valid()
      requires '\r' !in text && (EndsStopped(Wire()) || !MotionText(text + "\r"))
      modifies dev.serial`log, dev.serial.impl`fd, dev.serial.impl`isOpen, dev.serial.impl`leaked, dev.serial.impl.os
      ensures Valid()
      ensures HonestMotor() ==> old(HonestMotor())
      ensures r.Ok? ==> Wire() == old(Wire()) + [Msg(text + "\r")]
      ensures r.Ok? ==> TheMotor() == Step(old(TheMotor()), Msg(text + "\r"))
      ensures !r.Ok? ==> Wire() == old(Wire()) && TheMotor() == old(TheMotor())
      ensures dev.serial.log == old(dev.serial.log) + w && RetryTrace(w, text + "\r", r.Ok?) && r != Throw(RuntimeFault)
      ensures w == [] ==> r.Cut? || (r.Throw? && !dev.serial.impl.isOpen)
      ensures old(dev.Willing(|text| + 1)) ==> r.Cut? || r.Ok?
    {
      hide Digest, Guarded, MotorAfter, Honest, Step, EndsStopped, MotionText, Framed, RetryTrace, Device.Willing;
      ghost var wire := Wire();
      ghost var sent;
      var ok;
      ok, sent, w := WriteCmd(text, true);
      assert wire + [] == wire;
      if !ok.Ok? {
        return ok.PropagateFailure(), w;
      }
      if !ok.value {
        return Throw(IoFault), w;
      }
      GuardedSnoc(wire, Msg(text + "\r"));
      MotorSnoc(wire, Msg(text + "\r"), bias0);
      return Ok(()), w;
    }

    /** That a motion call does try.  Its query is offered to the kernel; when that was
        answered with anything but "stopped" the call refuses; when it said "stopped"
        the command is offered too, and only a kernel that does not take it whole, or
        a port that is gone, keeps it from going out.  `y` is where in the log. */
    ghost predicate Tried(y: Try, before: seq<Event>, c: Course, text: string, r: Result<()>)
      reads dev.serial, dev.serial.impl
    {
      && before <= dev.serial.log && |before| <= y.at && y.at + |y.w| <= |dev.serial.log|
      && dev.serial.log[y.at..y.at + |y.w|] == y.w
      && (if SaysStopped(c.query) then RetryTrace(y.w, text, c.sent) else y.w == [] && !c.sent)
      && (!Spoke(c.query) ==> Offers(before, dev.serial.log, "o\r") || r.Cut? || (r.Throw? && !dev.serial.impl.isOpen))
      && (Spoke(c.query) && !SaysStopped(c.query) ==> r == Throw(RuntimeFault))
      && (SaysStopped(c.query) && !c.sent ==> !r.Ok? && r != Throw(RuntimeFault))
      && (SaysStopped(c.query) && y.w == [] ==> r.Cut? || (r.Throw? && !dev.serial.impl.isOpen))
      && (SaysStopped(c.query) && Prompt(dev.serial.impl.os.tape) &&
          WriteBudget(dev.serial.impl.timeout, |text|) > 0 ==>
            c.sent || r.Cut?)
    }

    /** A motion command from the check to the end of the wait.  The conversation
        grows by the query, the command if the query said "stopped" and the write
        got through, and the polls of the wait; `m` is the motor as the command
        found it. */
    method Command(text: string, pos0: int, wait: bool)
      returns (r: Result<()>, pos: int, ghost c: Course, ghost m: Motor, ghost y: Try)
      requires Valid() && '\r' !in text && MotionText(text + "\r")
      modifies this`position, this`motorState
      modifies dev.serial`log, dev.serial.impl`fd, dev.serial.impl`isOpen, dev.serial.impl`leaked, dev.serial.impl.os
      ensures Valid()
      ensures HonestMotor() ==> old(HonestMotor())
      ensures Wire() == old(Wire()) + Trail(c, text + "\r") && Proper(c, wait)
      ensures Motions(Wire()) == old(Motions(Wire())) + (if c.sent then 1 else 0)
      ensures r.Ok? <==> c.sent && (wait ==> SaysStopped(Last(c.polls)))
      ensures r.Ok? && wait ==> Answered(Wire(), STOPPED, pos)
      ensures m.bias == old(TheMotor().bias) && (HonestMotor() && c.sent ==> m.rest == Some(position))
      ensures !c.sent ==> TheMotor().bias == m.bias
      ensures c.sent ==> TheMotor().bias == Step(m, Msg(text + "\r")).bias
      ensures c.sent && Step(m, Msg(text + "\r")).rest.Some? ==> TheMotor() == Step(m, Msg(text + "\r"))
      ensures r.Ok? && wait && HonestMotor() ==> TheMotor().rest == Some(pos)
      ensures Tried(y, old(dev.serial.log), c, text + "\r", r)
    {
      hide Wire, TheMotor, HonestMotor, Valid, Ready, Answered, EndsStopped, MotionText, Step, ReadsBack;
      hide Trail, Proper, Flat, Polling, Spoke, SaysStopped, QueryShape, Motions, RetryTrace, Offers, Prompt;
      hide WriteBudget;
      ghost var d, text' := Wire(), text + "\r";
      pos := pos0;
      ghost var q, w;
      r, q := RequireStopped();
      SpokeStatus(q);
      c, m, y := Course(q, false, []), TheMotor(), Try(|dev.serial.log|, []);
      Unsent(d, q, text', wait);
      if !r.Ok? {
        return;
      }
      r, w := Issue(text);
      y := y.(w := w);
      if !r.Ok? {
        return;
      }
      c := Course(q, true, []);
      if !wait {
        SentUnpolled(d, q, text');
        return;
      }
      ghost var log := dev.serial.log;
      var status, p, qs := GetPosition(pos, true);
      assert dev.serial.log[..|log|] == log;
      assert dev.serial.log[y.at..y.at + |w|] == log[y.at..];
      pos := p;
      c := Course(q, true, qs);
      SentAndPolled(d, q, text', qs);
      if !status.Ok? {
        r := status.PropagateFailure();
      }
    }

    /** Relative move: at most one "m" message, exactly one on success.  With
        `wait`, an honest motor is left at the position it reported before, plus
        `steps`, and that is what is returned. */
    method MoveBy(steps: int, pos0: int, wait: bool) returns (r: Result<()>, pos: int, ghost c: Course, ghost y: Try)
      requires Valid() && IsInt32(steps)
      modifies this`position, this`motorState
      modifies dev.serial`log, dev.serial.impl`fd, dev.serial.impl`isOpen, dev.serial.impl`leaked, dev.serial.impl.os
      ensures Valid()
      ensures HonestMotor() ==> old(HonestMotor())
      ensures Wire() == old(Wire()) + Trail(c, Text1('m', steps) + "\r") && Proper(c, wait)
      ensures Motions(Wire()) == old(Motions(Wire())) + (if c.sent then 1 else 0)
      ensures r.Ok? <==> c.sent && (wait ==> SaysStopped(Last(c.polls)))
      ensures Ledger() == old(Ledger())
      ensures r.Ok? && wait ==> Answered(Wire(), STOPPED, pos)
      ensures c.sent && HonestMotor() ==> TheMotor().rest == Some(position + steps)
      ensures r.Ok? && wait && HonestMotor() ==> pos == position + steps
      ensures Tried(y, old(dev.serial.log), c, Text1('m', steps) + "\r", r)
    {
      hide Wire, TheMotor, HonestMotor, Valid, Ready, Answered, EndsStopped, MotionText, Step, Text1;
      hide ReadsBack, Trail, Proper, Flat, Polling, Spoke, SaysStopped, QueryShape, Motions, Last, Tried;
      ghost var m;
      MotionText1('m', steps);
      r, pos, c, m, y := Command(Text1('m', steps), pos0, wait);
      StepText1(m, 'm', steps);
    }

    /** Absolute move: at most one "g" message, exactly one on success.  With
        `wait`, an honest motor ends at the target. */
    method Go(target: int, pos0: int, wait: bool) returns (r: Result<()>, pos: int, ghost c: Course, ghost y: Try)
      requires Valid() && IsInt32(target)
      modifies this`position, this`motorState
      modifies dev.serial`log, dev.serial.impl`fd, dev.serial.impl`isOpen, dev.serial.impl`leaked, dev.serial.impl.os
      ensures Valid()
      ensures HonestMotor() ==> old(HonestMotor())
      ensures Wire() == old(Wire()) + Trail(c, Text1('g', target) + "\r") && Proper(c, wait)
      ensures Motions(Wire()) == old(Motions(Wire())) + (if c.sent then 1 else 0)
      ensures r.Ok? <==> c.sent && (wait ==> SaysStopped(Last(c.polls)))
      ensures Ledger() == old(Ledger())
      ensures r.Ok? && wait ==> Answered(Wire(), STOPPED, pos)
      ensures c.sent ==> TheMotor().rest == Some(target)
      ensures r.Ok? && wait && HonestMotor() ==> pos == target
      ensures Tried(y, old(dev.serial.log), c, Text1('g', target) + "\r", r)
    {
      hide Wire, TheMotor, HonestMotor, Valid, Ready, Answered, EndsStopped, MotionText, Step, Text1;
      hide ReadsBack, Trail, Proper, Flat, Polling, Spoke, SaysStopped, QueryShape, Motions, Last, Tried;
      ghost var m;
      MotionText1('g', target);
      r, pos, c, m, y := Command(Text1('g', target), pos0, wait);
      StepText1(m, 'g', target);
    }

    /** Goes to the position for a transmission; one outside [0, 1] is refused and
        nothing is sent.  Once the message is out, the motor is on its way to the
        physical position the ledger and the transmission determine, as long as the
        step count fits its 32 bits. */
    method SetTransmission(t: real, wait: bool) returns (r: Result<()>, ghost c: Course, ghost y: Try)
      requires Valid()
      modifies this`position, this`motorState
      modifies dev.serial`log, dev.serial.impl`fd, dev.serial.impl`isOpen, dev.serial.impl`leaked, dev.serial.impl.os
      ensures Valid()
      ensures HonestMotor() ==> old(HonestMotor())
      ensures Ledger() == old(Ledger())
      ensures !(0.0 <= t <= 1.0) ==> r == Throw(RuntimeFault) && !c.sent && Wire() == old(Wire())
      ensures 0.0 <= t <= 1.0 ==>
                var target := ToInt32(TransToSteps(angle, t, offset));
                && Wire() == old(Wire()) + Trail(c, Text1('g', target) + "\r") && Proper(c, wait)
                && (r.Ok? <==> c.sent && (wait ==> SaysStopped(Last(c.polls))))
                && Tried(y, old(dev.serial.log), c, Text1('g', target) + "\r", r)
      ensures Motions(Wire()) == old(Motions(Wire())) + (if c.sent then 1 else 0)
      ensures r.Ok? ==> c.sent
      ensures c.sent && IsInt32(TransToSteps(angle, t, offset)) ==>
                Physical() == Some(TransToSteps(angle, t, 0) + Ledger())
    {
      hide Wire, TheMotor, HonestMotor, Valid, Ready, Answered, Trail, Proper, Polling, Spoke, SaysStopped, Motions;
      hide Last, Tried, Text1;
      if t < 0.0 || t > 1.0 {
        return Throw(RuntimeFault), Course([], false, []), Try(0, []);
      }
      var steps := ToInt32(TransToSteps(angle, t, offset));
      StepsFit(TransToSteps(angle, t, offset));
      PhysicalTargetIsLedger(angle, t, offset, TheMotor().bias, 0, Ledger());
      hide TransToSteps;
      var reported;
      r, reported, c, y := Go(steps, 0, wait);
    }

    static lemma StepsFit(x: int)
      ensures IsInt32(x) ==> ToInt32(x) == x
    {
    }

    /** Redefines the counter of the resting motor and books the difference:
        the ledger does not change, whatever the outcome. */
    method SetCurrentPosition(pos: int) returns (r: Result<()>, ghost c: Course, ghost y: Try)
      requires Valid() && IsInt32(pos)
      modifies this`offset, this`position, this`motorState
      modifies dev.serial`log, dev.serial.impl`fd, dev.serial.impl`isOpen, dev.serial.impl`leaked, dev.serial.impl.os
      ensures Valid() && old(Wire()) <= Wire()
      ensures HonestMotor() ==> old(HonestMotor())
      ensures Motions(Wire()) == old(Motions(Wire())) + (if r.Ok? then 1 else 0)
      ensures HonestMotor() ==> Ledger() == old(Ledger())
      ensures r.Ok? ==> TheMotor().rest == Some(pos)
      ensures Wire() == old(Wire()) + Trail(c, Text1('i', pos) + "\r") && Proper(c, false) && (r.Ok? <==> c.sent)
      ensures Tried(y, old(dev.serial.log), c, Text1('i', pos) + "\r", r)
    {
      hide Wire, TheMotor, HonestMotor, Valid, Ready, Answered, EndsStopped, MotionText, Step, Text1;
      hide ReadsBack, Trail, Proper, Flat, Polling, Spoke, SaysStopped, QueryShape, Motions, Last, Tried;
      MotionText1('i', pos);
      ghost var m;
      var reported;
      r, reported, c, m, y := Command(Text1('i', pos), 0, false);
      StepText1(m, 'i', pos);
      if r.Ok? {
        offset := offset + (pos - position);
      }
    }

    /** Resets the counter to zero.  The code books the counter value with the
        wrong sign and before the command is out: a successful call shifts the
        ledger by twice the counter, and a failed call by once the counter exactly
        when its own query was answered with "stopped". */
    method SetZero() returns (r: Result<()>, ghost c: Course, ghost y: Try)
      requires Valid()
      modifies this`offset, this`position, this`motorState
      modifies dev.serial`log, dev.serial.impl`fd, dev.serial.impl`isOpen, dev.serial.impl`leaked, dev.serial.impl.os
      ensures Valid() && old(Wire()) <= Wire()
      ensures HonestMotor() ==> old(HonestMotor())
      ensures r.Ok? ==> TheMotor().rest == Some(0)
      ensures HonestMotor() && r.Ok? ==> Ledger() == old(Ledger()) + 2 * position
      ensures HonestMotor() && r.Ok? ==> (Ledger() == old(Ledger()) <==> position == 0)
      ensures HonestMotor() && r.Ok? && old(TheMotor().rest).Some? ==>
                (Ledger() == old(Ledger()) <==> old(TheMotor().rest) == Some(0))
      ensures !r.Ok? ==> Ledger() == old(Ledger()) + (if Asked(old(Wire()), Wire()) then position else 0)
      ensures !r.Ok? ==> (Ledger() == old(Ledger()) <==> !Asked(old(Wire()), Wire()) || position == 0)
      ensures Wire() == old(Wire()) + Trail(c, "h" + "\r") && Proper(c, false) && (r.Ok? <==> c.sent)
      ensures Motions(Wire()) == old(Motions(Wire())) + (if r.Ok? then 1 else 0)
      ensures Tried(y, old(dev.serial.log), c, "h" + "\r", r)
    {
      hide Wire, TheMotor, HonestMotor, Valid, Ready, Answered, EndsStopped, MotionText, Step, Text1;
      hide ReadsBack, Trail, Proper, Flat, Polling, Spoke, SaysStopped, QueryShape, Motions, Last, RetryTrace, Offers;
      hide Prompt, WriteBudget;
      ghost var d, q, w := Wire(), [], [];
      ZeroText();
      r, q := RequireStopped();
      SpokeStatus(q);
      AskedIff(d, q);
      c, y := Course(q, false, []), Try(|dev.serial.log|, []);
      Unsent(d, q, "h" + "\r", false);
      if !r.Ok? {
        return;
      }
      StepFixed(TheMotor());
      offset := offset + position;
      r, w := Issue("h");
      y := y.(w := w);
      if r.Ok? {
        c := Course(q, true, []);
        SentUnpolled(d, q, "h" + "\r");
      }
    }

    /** Between the two points a position query was answered with "stopped", and
        nothing came after it. */
    static predicate Asked(before: seq<Item>, after: seq<Item>) {
      |after| >= |before| + 2 && EndsStopped(after)
    }

    static lemma AskedIff(d: seq<Item>, q: seq<Item>)
      requires QueryShape(q)
      ensures Asked(d, d + q) <==> SaysStopped(q)
    {
      hide EndsStopped;
      EndsWithStopped(d, q);
    }

    /** Soft or forced stop. */
    method Stop(force: bool) returns (r: Result<()>, ghost w: seq<Event>)
      requires Valid()
      modifies dev.serial`log, dev.serial.impl`fd, dev.serial.impl`isOpen, dev.serial.impl`leaked, dev.serial.impl.os
      ensures Valid()
      ensures HonestMotor() ==> old(HonestMotor())
      ensures Ledger() == old(Ledger())
      ensures Wire() == old(Wire()) + (if r.Ok? then [Msg(if force then "b" + "\r" else "st" + "\r")] else [])
      ensures dev.serial.log == old(dev.serial.log) + w
      ensures RetryTrace(w, if force then "b" + "\r" else "st" + "\r", r.Ok?)
      ensures w == [] ==> r.Cut? || (r.Throw? && !dev.serial.impl.isOpen)
      ensures old(dev.Willing(if force then 2 else 3)) ==> r.Cut? || r.Ok?
    {
      hide Wire, TheMotor, HonestMotor, Valid, Ready, Answered, EndsStopped, MotionText, Step, RetryTrace;
      hide Device.Willing;
      StepFixed(TheMotor());
      assert Wire() + [] == Wire();
      r, w := Issue(if force then "b" else "st");
    }

    /** To the hardware zero: counter, bias and offset are all zero afterwards. */
    method GoHome() returns (r: Result<()>, ghost c: Course, ghost y: Try)
      requires Valid()
      modifies this`offset, this`position, this`motorState
      modifies dev.serial`log, dev.serial.impl`fd, dev.serial.impl`isOpen, dev.serial.impl`leaked, dev.serial.impl.os
      ensures Valid() && old(Wire()) <= Wire()
      ensures HonestMotor() ==> old(HonestMotor())
      ensures Motions(Wire()) == old(Motions(Wire())) + (if r.Ok? then 1 else 0)
      ensures Ledger() == if r.Ok? then 0 else old(Ledger())
      ensures r.Ok? ==> offset == 0 && TheMotor() == Motor(Some(0), 0)
      ensures Wire() == old(Wire()) + Trail(c, "zp" + "\r") && Proper(c, false) && (r.Ok? <==> c.sent)
      ensures Tried(y, old(dev.serial.log), c, "zp" + "\r", r)
    {
      hide Wire, TheMotor, HonestMotor, Valid, Ready, Answered, EndsStopped, MotionText, Step, Text1;
      hide ReadsBack, Trail, Proper, Flat, Polling, Spoke, SaysStopped, QueryShape, Motions, Last, Tried;
      ghost var m;
      var reported;
      HomeText();
      r, reported, c, m, y := Command("zp", 0, false);
      StepFixed(m);
      if r.Ok? {
        offset := 0;
      }
    }

    // -----------------------------------------------------------------------
    // Settings
    // -----------------------------------------------------------------------

    /** The field-by-field store of `refresh_status`; an unreadable field leaves
        the earlier ones stored. */
    method StoreStatus(tokens: seq<string>) returns (r: Result<()>)
      modifies this`settings, this`motorState
      ensures r.Ok? <==> StatusOf(tokens).Ok?
      ensures r.Ok? ==> settings == StatusOf(tokens).value && motorState == settings.motorState
    {
      hide SignedField, UnsignedField, Low8;
      r := StoreRamps(tokens);
      if !r.Ok? { return; }
      r := StoreCurrents(tokens);
      if !r.Ok? { return; }
      r := StoreSwitches(tokens);
      hide Ramps, Currents, Switches;
    }

    method StoreRamps(tokens: seq<string>) returns (r: Result<()>)
      modifies this`settings, this`motorState
      ensures r.Ok? <==> Ramps(tokens).Ok?
      ensures r.Ok? ==>
                var v := Ramps(tokens).value;
                settings == old(settings).(opMode := v.0, motorState := v.1, acceleration := v.2, deceleration := v.3)
                && motorState == v.1
    {
      hide SignedField, UnsignedField, Low8;
      var mode :- SignedField(tokens, 0);
      settings := settings.(opMode := mode);
      var state :- SignedField(tokens, 1);
      settings := settings.(motorState := state);
      motorState := state;
      var acc :- UnsignedField(tokens, 2);
      settings := settings.(acceleration := Low8(acc));
      var dec :- UnsignedField(tokens, 3);
      settings := settings.(deceleration := Low8(dec));
      return Ok(());
    }

    method StoreCurrents(tokens: seq<string>) returns (r: Result<()>)
      modifies this`settings
      ensures r.Ok? <==> Currents(tokens).Ok?
      ensures r.Ok? ==>
                var v := Currents(tokens).value;
                settings == old(settings).(maxSpeed := v.0, currentMove := v.1, currentIdle := v.2)
    {
      hide SignedField, UnsignedField, Low8;
      var speed :- UnsignedField(tokens, 4);
      settings := settings.(maxSpeed := speed % UINT32_LIMIT);
      var move :- UnsignedField(tokens, 5);
      settings := settings.(currentMove := Low8(move));
      var idle :- UnsignedField(tokens, 6);
      settings := settings.(currentIdle := Low8(idle));
      return Ok(());
    }

    method StoreSwitches(tokens: seq<string>) returns (r: Result<()>)
      modifies this`settings
      ensures r.Ok? <==> Switches(tokens).Ok?
      ensures r.Ok? ==>
                var v := Switches(tokens).value;
                settings == old(settings).(resolution := v.0, motorEnabled := v.1,
                                           resetOnZero := v.2, reportOnZero := v.3)
    {
      hide SignedField, UnsignedField, Low8;
      var res :- UnsignedField(tokens, 8);
      settings := settings.(resolution := res);
      var enabled :- SignedField(tokens, 9);
      settings := settings.(motorEnabled := enabled != 0);
      var reset :- SignedField(tokens, 11);
      settings := settings.(resetOnZero := reset != 0);
      var report :- SignedField(tokens, 12);
      settings := settings.(reportOnZero := report != 0);
      return Ok(());
    }

    /** Queries and stores the settings.  The call succeeds exactly when the answer
        on the wire can be read, and then every stored setting is from it.  When
        what the device had for the read starts with a settings reply whose values
        fit, and the line came in whole, every stored setting is the one sent. */
    method RefreshStatus() returns (r: Result<()>, ghost q: seq<Item>)
      requires Valid()
      modifies this`settings, this`motorState
      modifies dev.serial`log, dev.serial.impl`fd, dev.serial.impl`isOpen, dev.serial.impl`leaked, dev.serial.impl.os
      ensures Valid()
      ensures HonestMotor() ==> old(HonestMotor())
      ensures Ledger() == old(Ledger())
      ensures Wire() == old(Wire()) + q && StatusShape(q)
      ensures r.Ok? <==> StatusSaid(q).Ok?
      ensures r.Ok? ==> settings == StatusSaid(q).value && motorState == settings.motorState
      ensures |q| == 2 && CameWhole(q[1].bytes) ==> forall fields, rest | InRange(fields) ::
                StatusSent(q[1].bytes + dev.serial.impl.os.incoming, fields, rest) ==>
                  r.Ok? && settings == Stored(fields) && motorState == fields[1]
      ensures old(dev.serial.log) <= dev.serial.log
      ensures Offers(old(dev.serial.log), dev.serial.log, "pc\r") || r.Cut? || (r.Throw? && !dev.serial.impl.isOpen)
    {
      hide Wire, TheMotor, HonestMotor, Valid, Ready, InRange, StatusSent, StatusOf, StatusTokens, CameWhole;
      hide RunsThrough;
      var answer;
      ghost var heard;
      answer, q, heard := AskStatus();
      if !answer.Ok? {
        return answer.PropagateFailure(), q;
      }
      forall fields, rest | InRange(fields) && CameWhole(heard) &&
                            StatusSent(heard + dev.serial.impl.os.incoming, fields, rest)
        ensures StatusReadable(answer.value, fields)
      {
        StatusBack(heard + dev.serial.impl.os.incoming, heard, fields, rest);
      }
      var tokens := StatusTokens(answer.value);
      if !tokens.Ok? {
        return tokens.PropagateFailure(), q;
      }
      r := StoreStatus(tokens.value);
    }

    /** What a settings query leaves on the wire: nothing, the query, or the query
        and a line. */
    static predicate StatusShape(q: seq<Item>) {
      |q| <= 2 && (|q| >= 1 ==> q[0] == Msg("pc\r")) && (|q| == 2 ==> q[1].Line?)
    }

    /** The settings as the driver reads them off the answer. */
    static function StatusSaid(q: seq<Item>): Result<Settings>
      requires StatusShape(q)
    {
      if |q| < 2 || |q[1].bytes| < 2 then Throw(IoFault)
      else
        var tokens := StatusTokens(q[1].bytes[..|q[1].bytes| - 2]);
        if tokens.Ok? then StatusOf(tokens.value) else Throw(OutOfRange)
    }

    ghost predicate StatusReadable(answer: string, fields: seq<nat>) {
      && |fields| == STATUS_FIELDS
      && StatusTokens(answer).Ok? && StatusOf(StatusTokens(answer).value) == Ok(Stored(fields))
    }

    lemma StatusBack(stream: string, heard: string, fields: seq<nat>, rest: string)
      requires InRange(fields) && StatusSent(stream, fields, rest) && StopsAt(heard, |heard|, MAX_LINE, EOL)
      requires heard <= stream && RunsThrough(heard, MAX_LINE, EOL)
      ensures |heard| >= 2 && StatusReadable(heard[..|heard| - 2], fields)
    {
      assert |fields| == STATUS_FIELDS;
      StatusRoundTrip(stream, heard, fields, rest);
    }

    method AskStatus() returns (r: Result<string>, ghost q: seq<Item>, ghost heard: string)
      requires Valid()
      modifies dev.serial`log, dev.serial.impl`fd, dev.serial.impl`isOpen, dev.serial.impl`leaked, dev.serial.impl.os
      ensures Valid()
      ensures HonestMotor() ==> old(HonestMotor())
      ensures TheMotor().bias == old(TheMotor().bias)
      ensures Wire() == old(Wire()) + q && StatusShape(q)
      ensures |q| == 2 ==> q[1] == Line(heard) && RunsThrough(heard, MAX_LINE, EOL)
      ensures r.Ok? <==> |q| == 2 && |heard| >= 2
      ensures r.Ok? ==> r.value == heard[..|heard| - 2]
      ensures |q| == 2 && CameWhole(heard) ==> StopsAt(heard, |heard|, MAX_LINE, EOL)
      ensures old(dev.serial.log) <= dev.serial.log
      ensures Offers(old(dev.serial.log), dev.serial.log, "pc\r") || r.Cut? || (r.Throw? && !dev.serial.impl.isOpen)
    {
      hide Digest, SentBytes, HeardBytes, Guarded, MotorAfter, Honest, Framed, CameWhole;
      q, heard := [], [];
      ghost var wire := Wire();
      SettingsText();
      var sent, _, w := WriteCmd("pc", true);
      if w != [] {
        RetryOffers(old(dev.serial.log), w, "pc\r", sent == Ok(true));
      }
      assert wire + [] == wire;
      if !sent.Ok? {
        return sent.PropagateFailure(), q, heard;
      }
      if !sent.value {
        return Throw(IoFault), q, heard;
      }
      hide RunsThrough, StopsAt;
      q := [Msg("pc\r")];
      ghost var stream, trace;
      var got, resp;
      got, resp, heard, stream, trace := ReadCmd("", true);
      QuietExchange(wire, "pc\r", if got.Ok? && heard != [] then Some(heard) else None, bias0);
      assert wire + q + [Line(heard)] == wire + [Msg("pc\r"), Line(heard)];
      assert wire + q + [] == wire + q;
      if got.Ok? && heard != [] {
        q := [Msg("pc\r"), Line(heard)];
      }
      if !got.Ok? {
        return got.PropagateFailure(), q, heard;
      }
      if !got.value {
        return Throw(IoFault), q, heard;
      }
      assert [] + heard == heard;
      return Ok(resp), q, heard;
    }

    // -----------------------------------------------------------------------
    // Runs
    // -----------------------------------------------------------------------

    /** The end of the constructor: open the port, then read settings and position.
        On success the wire holds just the two exchanges, and what is cached was
        read off them. */
    method Attach() returns (r: Result<()>, ghost status: seq<Item>, ghost place: seq<Item>)
      requires Valid()
      modifies this`settings, this`motorState, this`position
      modifies dev.serial`log, dev.serial.impl`fd, dev.serial.impl`isOpen, dev.serial.impl`leaked, dev.serial.impl.os
      ensures Valid()
      ensures HonestMotor() ==> old(HonestMotor())
      ensures Ledger() == old(Ledger())
      ensures Wire() == old(Wire()) + status + place && StatusShape(status) && QueryShape(place)
      ensures r.Ok? ==> StatusSaid(status) == Ok(settings) && Spoke(place) && Answered(Wire(), motorState, position)
    {
      hide Digest, SentBytes, HeardBytes, Guarded, MotorAfter, Honest, Answered, Framed, StatusSaid, Spoke, CameWhole;
      status, place := [], [];
      var _ :- dev.serial.impl.Open();
      r, status := RefreshStatus();
      if !r.Ok? {
        return;
      }
      r, place := RefreshPosition();
    }

    method Perform(op: Op)
      requires Valid() && op.WellFormed()
      modifies this`offset, this`settings, this`motorState, this`position
      modifies dev.serial`log, dev.serial.impl`fd, dev.serial.impl`isOpen, dev.serial.impl`leaked, dev.serial.impl.os
      ensures Valid() && old(Wire()) <= Wire()
      ensures HonestMotor() ==> old(HonestMotor())
      ensures HonestMotor() && op.KeepsLedger() ==>
                Ledger() == old(Ledger()) || (op.DoHome? && Ledger() == 0)
    {
      hide Wire, TheMotor, HonestMotor, Valid, Ready, Answered, Ledger;
      match op {
        case DoMove(steps, wait) => var _, _, _, _ := MoveBy(steps, 0, wait);
        case DoGo(target, wait) => var _, _, _, _ := Go(target, 0, wait);
        case DoTransmission(t, wait) => var _, _, _ := SetTransmission(t, wait);
        case DoSetPosition(pos) => var _, _, _ := SetCurrentPosition(pos);
        case DoSetZero => var _, _, _ := SetZero();
        case DoStop(force) => var _, _ := Stop(force);
        case DoHome => var _, _, _ := GoHome();
        case DoPoll(wait) => Watch(wait);
        case DoRefreshStatus => var _, _ := RefreshStatus();
      }
    }

    /** The physical place of a transmission: however the driver is used in between,
        without `set_zero`, forced stops and homing, the same transmission sends an
        honest motor to the same physical position; with homing too, if offset and
        bias cancel to begin with.  `mid` is the conversation after the first call. */
    method Revisit(t: real, ops: seq<Op>, wait: bool)
      returns (first: Result<()>, second: Result<()>, ghost mid: seq<Item>)
      requires Valid() && forall op <- ops :: op.WellFormed()
      modifies this`offset, this`settings, this`motorState, this`position
      modifies dev.serial`log, dev.serial.impl`fd, dev.serial.impl`isOpen, dev.serial.impl`leaked, dev.serial.impl.os
      ensures Valid()
      ensures old(Wire()) <= mid <= Wire()
      ensures first.Ok? ==> Motions(mid) == old(Motions(Wire())) + 1
      ensures first.Ok? && second.Ok? && HonestMotor() && (forall op <- ops :: op.KeepsLedger() && !op.DoHome?)
              && IsInt32(TransToSteps(angle, t, old(offset))) && IsInt32(TransToSteps(angle, t, offset)) ==>
                PhysicalAfter(mid) == Physical() == Some(TransToSteps(angle, t, 0) + old(Ledger()))
      ensures first.Ok? && second.Ok? && HonestMotor() && (forall op <- ops :: op.KeepsLedger()) && old(Ledger()) == 0
              && IsInt32(TransToSteps(angle, t, old(offset))) && IsInt32(TransToSteps(angle, t, offset)) ==>
                PhysicalAfter(mid) == Physical() == Some(TransToSteps(angle, t, 0))
    {
      hide Wire, HonestMotor, Valid, Ready, Ledger, Place, TransToSteps, Motions, Trail, Proper, MotorAfter;
      hide Tried, Offers;
      ghost var c, y;
      first, c, y := SetTransmission(t, wait);
      mid := Wire();
      Run(ops);
      second, c, y := SetTransmission(t, wait);
    }

    method Watch(wait: bool)
      requires Valid()
      modifies dev.serial`log, dev.serial.impl`fd, dev.serial.impl`isOpen, dev.serial.impl`leaked, dev.serial.impl.os
      ensures Valid() && old(Wire()) <= Wire()
      ensures HonestMotor() ==> old(HonestMotor())
      ensures Ledger() == old(Ledger())
    {
      hide Wire, TheMotor, HonestMotor, Valid, Ready, Answered;
      var _, _, _ := GetPosition(0, wait);
    }

    /** Over every run of operations, whatever their outcomes: motion messages
        only ever follow an answered query that said "stopped" (`Valid`), and
        without `set_zero` and forced stops the ledger stays where it is, so the
        physical target of a transmission never moves; homing keeps it because it
        is zero when counter and hardware zero agree. */
    method Run(ops: seq<Op>)
      requires Valid() && forall op <- ops :: op.WellFormed()
      modifies this`offset, this`settings, this`motorState, this`position
      modifies dev.serial`log, dev.serial.impl`fd, dev.serial.impl`isOpen, dev.serial.impl`leaked, dev.serial.impl.os
      ensures Valid() && old(Wire()) <= Wire()
      ensures HonestMotor() ==> old(HonestMotor())
      ensures HonestMotor() && (forall op <- ops :: op.KeepsLedger() && !op.DoHome?) ==> Ledger() == old(Ledger())
      ensures HonestMotor() && (forall op <- ops :: op.KeepsLedger()) && old(Ledger()) == 0 ==> Ledger() == 0
    {
      hide Wire, TheMotor, HonestMotor, Valid, Ready, Ledger;
      for i := 0 to |ops|
        invariant Valid() && old(Wire()) <= Wire()
        invariant HonestMotor() ==> old(HonestMotor())
        invariant HonestMotor() && (forall op <- ops :: op.KeepsLedger() && !op.DoHome?) ==> Ledger() == old(Ledger())
        invariant HonestMotor() && (forall op <- ops :: op.KeepsLedger()) && old(Ledger()) == 0 ==> Ledger() == 0
      {
        Perform(ops[i]);
      }
    }
  }

  datatype Op =
    | DoMove(steps: int, wait: bool)
    | DoGo(target: int, wait: bool)
    | DoTransmission(t: real, wait: bool)
    | DoSetPosition(pos: int)
    | DoSetZero
    | DoStop(force: bool)
    | DoHome
    | DoPoll(wait: bool)
    | DoRefreshStatus
  {
    /** Arguments are `int32_t`. */
    predicate WellFormed() {
      (DoMove? ==> IsInt32(steps)) && (DoGo? ==> IsInt32(target)) && (DoSetPosition? ==> IsInt32(pos))
    }

    predicate KeepsLedger() {
      !DoSetZero? && !(DoStop? && force)
    }
  }
}
