/** The power meter driver: one transaction per command, and the values and
    tables it caches from the answers. */
module PowerMeterDriver {
  import opened Outcome
  import opened Text
  import opened Decimal
  import opened Lines
  import opened SerialPort
  import opened DeviceLine
  import opened MeterTables
  import opened MeterReplies
  import CommandLine
  import Transactions

  // -------------------------------------------------------------------------
  // Transactions
  // -------------------------------------------------------------------------

  /** The reads of one transaction: a second one follows only a reset, which
      follows only a read too short to count. */
  predicate ReadTrace(t: seq<Event>) {
    || t == []
    || (|t| == 1 && t[0].Heard?)
    || (|t| == 2 && t[0].Heard? && t[0].ok && |t[0].bytes| < 2 && t[1] == Reset)
    || (|t| == 3 && t[0].Heard? && t[0].ok && |t[0].bytes| < 2 && t[1] == Reset && t[2].Heard?)
  }

  /** The bytes those reads handed to the caller. */
  function Received(t: seq<Event>): string
    requires ReadTrace(t)
  {
    if |t| == 0 then []
    else (if t[0].ok then t[0].bytes else []) + (if |t| == 3 && t[2].ok then t[2].bytes else [])
  }

  function DropLast2(s: string): string
    requires |s| >= 2
  {
    s[..|s| - 2]
  }

  /** The last read brought enough. */
  predicate Answered(t: seq<Event>) {
    t != [] && t[|t| - 1].Heard? && t[|t| - 1].ok && |t[|t| - 1].bytes| >= 2
  }

  function Answer(t: seq<Event>): string
    requires ReadTrace(t)
  {
    if Answered(t) then DropLast2(Received(t)) else []
  }

  /** The writes and reads of one transaction: it reads exactly when the message went
      out whole, and reads again exactly when the first read was too short. */
  predicate Traces(w: seq<Event>, t: seq<Event>, msg: string) {
    && RetryTrace(w, msg, t != [])
    && ReadTrace(t) && !(|t| == 1 && t[0].ok && |t[0].bytes| < 2)
  }

  /** Between two points of the log there is exactly one transaction, and this is
      the answer it brought, empty if it brought none. */
  ghost predicate Asked(before: seq<Event>, after: seq<Event>, msg: string, answer: string) {
    exists w, t | Traces(w, t, msg) :: after == before + w + t && answer == Answer(t)
  }

  lemma AskedBy(before: seq<Event>, w: seq<Event>, t: seq<Event>, msg: string)
    requires Traces(w, t, msg)
    ensures Asked(before, before + w + t, msg, Answer(t))
    ensures w != [] ==> Offers(before, before + w + t, msg)
  {
    if w != [] {
      RetryOffers(before, w, msg, t != []);
      OffersStill(before, before + w, before + w + t, msg);
    }
  }

  /** The log decides what the answer was. */
  lemma AskedOnce(before: seq<Event>, after: seq<Event>, msg: string, x: string, y: string)
    requires Asked(before, after, msg, x) && Asked(before, after, msg, y)
    ensures x == y
  {
    hide RetryTrace, ReadTrace, BeforeReads, Answer;
    var w, t :| Traces(w, t, msg) && after == before + w + t && x == Answer(t);
    var w', t' :| Traces(w', t', msg) && after == before + w' + t' && y == Answer(t');
    assert w == after[|before|..|before| + |w|] && t == after[|before| + |w|..];
    assert w' == after[|before|..|before| + |w'|] && t' == after[|before| + |w'|..];
    TracesCut(w, t, msg);
    TracesCut(w', t', msg);
    assert w + t == after[|before|..] == w' + t';
  }

  lemma TracesCut(w: seq<Event>, t: seq<Event>, msg: string)
    requires Traces(w, t, msg)
    ensures BeforeReads(w + t) == |w|
  {
    WritesFirst(w, t);
  }

  function BeforeReads(s: seq<Event>): nat {
    if s == [] || s[0].Heard? then 0 else 1 + BeforeReads(s[1..])
  }

  lemma {:induction false} WritesFirst(w: seq<Event>, t: seq<Event>)
    requires (forall i :: 0 <= i < |w| ==> !w[i].Heard?) && (t != [] ==> t[0].Heard?)
    ensures BeforeReads(w + t) == |w|
  {
    if w == [] {
      assert w + t == t;
    } else {
      WritesFirst(w[1..], t);
      assert (w + t)[1..] == w[1..] + t;
    }
  }

  // -------------------------------------------------------------------------
  // The transaction as its locks and port operations
  // -------------------------------------------------------------------------

  /** What an event is on the port. */
  function Mark(e: Event): seq<Transactions.Io> {
    match e
    case Sent(_, _) => [Transactions.WriteBytes]
    case Heard(bytes, _, _) => seq(|bytes|, _ => Transactions.ReadBytes)
    case Reset => [Transactions.ClosePort]
  }

  function Marks(log: seq<Event>): seq<Transactions.Io> {
    if log == [] then [] else Mark(log[0]) + Marks(log[1..])
  }

  /** The path a transaction took, by its stages that left something in the log. */
  predicate Follows(path: Transactions.Path, w: seq<Event>, t: seq<Event>)
    requires ReadTrace(t)
  {
    && (w != [] <==> path.w1 >= Transactions.WriteCalls(path.closed))
    && (|w| >= 2 <==> path.reset1 > 0)
    && (|w| == 3 <==> path.w2.Some? && path.w2.value >= Transactions.WriteCalls(false))
    && path.r1 == (if t == [] then None else Some(|t[0].bytes|))
    && (|t| >= 2 <==> path.reset2 > 0)
    && path.r2 == (if |t| == 3 then Some(|t[2].bytes|) else None)
  }

  function PathOf(closed: bool, w: seq<Event>, t: seq<Event>): (path: Transactions.Path)
    requires |w| <= 3 && ReadTrace(t)
    ensures Follows(path, w, t) && path.closed == closed
  {
    Transactions.Path(closed, if w == [] then 0 else Transactions.WriteCalls(closed), if |w| >= 2 then 2 else 0,
                      if |w| == 3 then Some(Transactions.WriteCalls(false)) else None,
                      if t == [] then None else Some(|t[0].bytes|), if |t| >= 2 then 2 else 0,
                      if |t| == 3 then Some(|t[2].bytes|) else None)
  }

  ghost predicate Performed(p: Transactions.Program, w: seq<Event>, t: seq<Event>) {
    && Transactions.WellFormed(p) && Transactions.AllGuarded(p)
    && Transactions.Telling(Transactions.IosOf(p, |p|)) == Marks(w) + Marks(t)
    && Transactions.Flushed(Transactions.IosOf(p, |p|))
  }

  /** What a transaction leaves in the log is what its program does to the port: one
      write per message offered, each right behind dropping what is pending, the resets
      and the bytes read, in the same order; everything under its lock. */
  lemma TransactionTold(path: Transactions.Path, w: seq<Event>, t: seq<Event>, msg: string)
    requires RetryTrace(w, msg, t != []) && ReadTrace(t) && Follows(path, w, t)
    ensures Performed(Transactions.SendCmdProgram(path), w, t)
  {
    Transactions.SendCmdWellFormed(path);
    Transactions.SendCmdTells(path);
    hide Transactions.SendCmdProgram, Transactions.WellFormed, Transactions.AllGuarded;
    hide Transactions.Telling, Transactions.IosOf, Transactions.Flushed;
    MarksOfThree(w);
    MarksOfThree(t);
  }

  lemma PathTold(closed: bool, w: seq<Event>, t: seq<Event>, msg: string)
    requires RetryTrace(w, msg, t != []) && ReadTrace(t)
    ensures |w| <= 3 && Performed(Transactions.SendCmdProgram(PathOf(closed, w, t)), w, t)
  {
    TransactionTold(PathOf(closed, w, t), w, t, msg);
  }

  lemma MarksOfThree(s: seq<Event>)
    requires |s| <= 3
    ensures Marks(s) == (if |s| > 0 then Mark(s[0]) else []) + (if |s| > 1 then Mark(s[1]) else [])
                        + (if |s| > 2 then Mark(s[2]) else [])
  {
    hide Mark;
    if |s| > 0 {
      assert Marks(s) == Mark(s[0]) + Marks(s[1..]);
      if |s| > 1 {
        assert Marks(s[1..]) == Mark(s[1]) + Marks(s[1..][1..]);
        if |s| > 2 {
          assert Marks(s[1..][1..]) == Mark(s[2]) + Marks(s[1..][1..][1..]);
        }
      }
    }
  }

  type Word16 = n: nat | n < UINT16_LIMIT

  class PowerMeter {
    const dev: Device
    var eThreshold: nat
    var thresholdMin: nat
    var thresholdMax: nat
    var ranges: map<int, string>
    var pulseLengths: map<int, string>
    var aveWindows: map<int, string>

    ghost predicate Valid()
      reads this, dev.serial, dev.serial.impl, dev.serial.impl.os
    {
      && dev.Valid() && dev.pre == "$" && dev.sfx == "\r\n" && dev.readSfx == "\r\n"
      && eThreshold < UINT16_LIMIT && thresholdMin < UINT16_LIMIT && thresholdMax < UINT16_LIMIT
    }

    constructor (dev: Device)
      requires dev.Valid() && dev.pre == "$" && dev.sfx == "\r\n" && dev.readSfx == "\r\n"
      ensures Valid() && this.dev == dev
    {
      this.dev := dev;
      eThreshold, thresholdMin, thresholdMax := 1, 0xFFFF, 0xFFFF;
      ranges, pulseLengths, aveWindows := map[], map[], map[];
    }

    /** Reads an answer behind `resp0`, once more after a reset if it was too
        short.  Nothing that was read is ever taken back. */
    method ReadRetrying(resp0: string, repeat: bool) returns (r: Result<bool>, resp: string, ghost t: seq<Event>)
      requires dev.Valid() && |dev.readSfx| == 2
      modifies dev.serial`log, dev.serial.impl`fd, dev.serial.impl`isOpen, dev.serial.impl`leaked, dev.serial.impl.os
      ensures dev.Valid()
      ensures dev.serial.log == old(dev.serial.log) + t && ReadTrace(t) && t != []
      ensures !repeat ==> |t| <= 1
      ensures repeat && r == Ok(false) ==> |t| == 3
      ensures |Received(t)| <= MAX_LINE + 1
      ensures r == Ok(true) <==> Answered(t)
      ensures repeat ==> !(|t| == 1 && t[0].ok && |t[0].bytes| < 2)
      ensures r == Ok(true) ==> |Received(t)| >= 2 && resp == DropLast2(resp0 + Received(t))
      ensures r != Ok(true) ==> resp == resp0 + Received(t)
    {
      hide SentBytes, HeardBytes, Device.Valid, Device.Reopens;
      ghost var log, heard := dev.serial.log, Reset;
      r, resp, heard := ReadOnce(resp0);
      t := [heard];
      OneRead(log, heard);
      hide ReadTrace, Received, Answered;
      if r == Ok(false) && repeat {
        t := [heard, Reset];
        var _ :- dev.ResetConnection();
        ghost var again;
        r, resp, again := ReadOnce(resp);
        TwoReads(log, heard, again);
        t := [heard, Reset, again];
        Associate(resp0, heard.bytes, again.bytes);
      }
    }

    method ReadOnce(resp0: string) returns (r: Result<bool>, resp: string, ghost heard: Event)
      requires dev.Valid() && |dev.readSfx| == 2
      modifies dev.serial`log, dev.serial.impl`fd, dev.serial.impl`isOpen, dev.serial.impl`leaked, dev.serial.impl.os
      ensures dev.Valid() && dev.serial.log == old(dev.serial.log) + [heard]
      ensures heard.Heard? && |heard.bytes| <= MAX_LINE && heard.ok == r.Ok?
      ensures r.Ok? ==> (r.value <==> |heard.bytes| >= 2)
      ensures r == Ok(true) ==> resp == DropLast2(resp0 + heard.bytes)
      ensures r == Ok(false) ==> resp == resp0 + heard.bytes
      ensures !r.Ok? ==> resp == resp0
    {
      hide SentBytes, HeardBytes, RunsThrough, StopsAt, LineLength, Serial.Served, Device.Valid;
      ghost var got;
      r, resp, got := dev.ReadCmd(resp0);
      heard := dev.serial.log[|dev.serial.log| - 1];
    }

    static lemma OneRead(log: seq<Event>, heard: Event)
      requires heard.Heard?
      ensures ReadTrace([heard]) && Received([heard]) == if heard.ok then heard.bytes else []
      ensures Answered([heard]) <==> heard.ok && |heard.bytes| >= 2
      ensures heard.ok && |heard.bytes| < 2 ==>
                ReadTrace([heard, Reset]) && Received([heard, Reset]) == heard.bytes && !Answered([heard, Reset])
      ensures log + [heard] + [Reset] == log + [heard, Reset]
    {
    }

    static lemma TwoReads(log: seq<Event>, heard: Event, again: Event)
      requires heard.Heard? && heard.ok && |heard.bytes| < 2 && again.Heard?
      ensures var t := [heard, Reset, again];
              && ReadTrace(t) && Received(t) == heard.bytes + (if again.ok then again.bytes else [])
              && (Answered(t) <==> again.ok && |again.bytes| >= 2)
              && log + [heard] + [Reset] + [again] == log + t
    {
    }

    /** One transaction: a command with at most one retry, then an answer with at
        most one retry.  If it returns true the message went out whole exactly
        once and the answer is everything there was plus everything read, less
        the last two bytes. */
    method SendCmd(cmd: string, resp0: string, repeat: bool)
      returns (r: Result<bool>, resp: string, ghost w: seq<Event>, ghost t: seq<Event>)
      requires dev.Valid() && |dev.readSfx| == 2
      modifies dev.serial`log, dev.serial.impl`fd, dev.serial.impl`isOpen, dev.serial.impl`leaked, dev.serial.impl.os
      ensures dev.Valid()
      ensures dev.serial.log == old(dev.serial.log) + w + t && ReadTrace(t)
      ensures RetryTrace(w, dev.Message(cmd), t != []) && (r == Ok(true) <==> Answered(t))
      ensures |w| <= 3 && Performed(Transactions.SendCmdProgram(PathOf(old(!dev.serial.impl.isOpen), w, t)), w, t)
      ensures repeat ==> Traces(w, t, dev.Message(cmd))
      ensures w == [] ==> r.Cut? || (r.Throw? && !dev.serial.impl.isOpen)
      ensures !repeat ==> |w| <= 1 && |t| <= 1
      ensures repeat && r == Ok(false) ==> |w| == 3 || |t| == 3
      ensures |Received(t)| <= MAX_LINE + 1
      ensures r == Ok(true) ==> t != [] && |Received(t)| >= 2 && resp == DropLast2(resp0 + Received(t))
      ensures r != Ok(true) ==> resp == resp0 + Received(t)
    {
      hide SentBytes, HeardBytes, RetryTrace, Performed, PathOf, Transactions.SendCmdProgram;
      ghost var closed := !dev.serial.impl.isOpen;
      resp, t := resp0, [];
      r, w := dev.WriteRetrying(cmd, repeat);
      if r != Ok(true) {
        PathTold(closed, w, t, dev.Message(cmd));
        return;
      }
      r, resp, t := ReadRetrying(resp0, repeat);
      PathTold(closed, w, t, dev.Message(cmd));
    }

    /** A transaction that throws when it fails; every query starts like this. */
    method Ask(cmd: string) returns (r: Result<string>)
      requires Valid()
      modifies dev.serial`log, dev.serial.impl`fd, dev.serial.impl`isOpen, dev.serial.impl`leaked, dev.serial.impl.os
      ensures Valid()
      ensures r.Ok? ==> |r.value| < MAX_LINE
      ensures Asked(old(dev.serial.log), dev.serial.log, dev.Message(cmd), if r.Ok? then r.value else [])
      ensures Offers(old(dev.serial.log), dev.serial.log, dev.Message(cmd)) || r.Cut? ||
              (r.Throw? && !dev.serial.impl.isOpen)
    {
      hide RetryTrace, ReadTrace, Received, SentBytes, HeardBytes, Asked, Traces, Offers, Answered, Performed;
      ghost var w, t;
      var ok, resp;
      ok, resp, w, t := SendCmd(cmd, "", true);
      assert [] + Received(t) == Received(t);
      AskedBy(old(dev.serial.log), w, t, dev.Message(cmd));
      if !ok.Ok? {
        return ok.PropagateFailure();
      }
      return if ok.value then Ok(resp) else Throw(IoFault);
    }

    // -----------------------------------------------------------------------
    // Threshold
    // -----------------------------------------------------------------------

    /** `std::stoul(tokens.at(i)) & 0xFFFF`. */
    static function Field16(tokens: seq<string>, i: nat): (r: Result<nat>)
      ensures r.Ok? ==> r.value < UINT16_LIMIT
    {
      if i >= |tokens| then Throw(OutOfRange)
      else var v :- StoUL(tokens[i]); Ok(v % UINT16_LIMIT)
    }

    /** Asks for the threshold and its limits and caches all three. */
    method QueryUserThreshold() returns (r: Result<(nat, nat, nat)>, ghost reply: string)
      requires Valid()
      modifies this`eThreshold, this`thresholdMin, this`thresholdMax
      modifies dev.serial`log, dev.serial.impl`fd, dev.serial.impl`isOpen, dev.serial.impl`leaked, dev.serial.impl.os
      ensures Valid()
      ensures Asked(old(dev.serial.log), dev.serial.log, dev.Message("UT"), reply)
      ensures Offers(old(dev.serial.log), dev.serial.log, dev.Message("UT")) || r.Cut? ||
              (r.Throw? && !dev.serial.impl.isOpen)
      ensures r.Ok? ==> r.value == (eThreshold, thresholdMin, thresholdMax)
      ensures r.Ok? ==> reply != [] && ThresholdReply(reply, eThreshold, thresholdMin, thresholdMax)
      ensures forall current: Word16, min: Word16, max: Word16 ::
                reply == ThresholdText(current, min, max) ==> r == Ok((current, min, max))
    {
      hide SentBytes, HeardBytes, Field16, Asked, Offers, Tokens, ThresholdText;
      reply := [];
      var rr :- Ask("UT");
      reply := rr;
      forall current: Word16, min: Word16, max: Word16 | rr == ThresholdText(current, min, max)
        ensures rr != [] && ThresholdReply(rr, current, min, max)
      {
        ReadsThreshold(current, min, max);
      }
      if rr == [] {
        return Throw(OutOfRange), reply;
      }
      r := StoreThreshold(Tokens(rr[1..], " "));
    }

    /** The driver reads the meter's three numbers as what they are. */
    static lemma ReadsThreshold(current: Word16, min: Word16, max: Word16)
      ensures var reply := ThresholdText(current, min, max);
              && reply != [] && reply[0] == '*' && |Tokens(reply[1..], " ")| == 3
              && ThresholdReply(reply, current, min, max)
    {
      hide Tokens, Dec, Field16, ThresholdText;
      ThresholdTokens(current, min, max);
      var tokens := [Dec(current), Dec(min), Dec(max)];
      FieldRead(tokens, 0, current);
      FieldRead(tokens, 1, min);
      FieldRead(tokens, 2, max);
    }

    static lemma FieldRead(tokens: seq<string>, i: nat, n: Word16)
      requires i < |tokens| && tokens[i] == Dec(n)
      ensures Field16(tokens, i) == Ok(n)
    {
      StoULInvertsPrint(n);
      hide StoUL, Dec;
    }

    /** Current value and limits, as the first three fields of a reply. */
    static predicate ThresholdReply(reply: string, current: nat, min: nat, max: nat)
      requires reply != []
    {
      var tokens := Tokens(reply[1..], " ");
      Field16(tokens, 0) == Ok(current) && Field16(tokens, 1) == Ok(min) && Field16(tokens, 2) == Ok(max)
    }

    method StoreThreshold(tokens: seq<string>) returns (r: Result<(nat, nat, nat)>)
      modifies this`eThreshold, this`thresholdMin, this`thresholdMax
      ensures old(eThreshold) < UINT16_LIMIT ==> eThreshold < UINT16_LIMIT
      ensures old(thresholdMin) < UINT16_LIMIT ==> thresholdMin < UINT16_LIMIT
      ensures old(thresholdMax) < UINT16_LIMIT ==> thresholdMax < UINT16_LIMIT
      ensures r.Ok? <==> Field16(tokens, 0).Ok? && Field16(tokens, 1).Ok? && Field16(tokens, 2).Ok?
      ensures r.Ok? ==> r.value == (eThreshold, thresholdMin, thresholdMax)
      ensures r.Ok? ==> Field16(tokens, 0) == Ok(eThreshold)
      ensures r.Ok? ==> Field16(tokens, 1) == Ok(thresholdMin) && Field16(tokens, 2) == Ok(thresholdMax)
    {
      var current :- Field16(tokens, 0);
      eThreshold := current;
      var min :- Field16(tokens, 1);
      thresholdMin := min;
      var max :- Field16(tokens, 2);
      thresholdMax := max;
      return Ok((current, min, max));
    }

    /** Sets the threshold.  `answer` is the caller's variable.  Whenever the
        first reply starts with "*" or "?" and the call returns normally, the
        answer is the cached threshold, on every path: refused, accepted, or
        accepted with an odd reply that made the driver ask again.  A refused
        request leaves the cache alone; an ordinary reply puts its own number
        there. */
    method UserThreshold(value: nat, answer0: nat)
      returns (r: Result<()>, answer: nat, ghost reply: string, ghost mid: seq<Event>, ghost second: string)
      requires Valid() && value < UINT16_LIMIT
      modifies this`eThreshold, this`thresholdMin, this`thresholdMax
      modifies dev.serial`log, dev.serial.impl`fd, dev.serial.impl`isOpen, dev.serial.impl`leaked, dev.serial.impl.os
      ensures Valid()
      ensures Asked(old(dev.serial.log), mid, dev.Message("UT " + Dec(value)), reply)
      ensures Offers(old(dev.serial.log), mid, dev.Message("UT " + Dec(value))) || r.Cut? ||
              (r.Throw? && !dev.serial.impl.isOpen)
      ensures !Unclear(reply) ==> mid == dev.serial.log
      ensures Unclear(reply) ==> Asked(mid, dev.serial.log, dev.Message("UT"), second)
      ensures Unclear(reply) ==> Offers(mid, dev.serial.log, dev.Message("UT")) || r.Cut? ||
                                 (r.Throw? && !dev.serial.impl.isOpen)
      ensures r.Ok? ==> reply != []
      ensures reply != [] && reply[0] != '*' ==> r.Ok?
      ensures forall current: Word16, min: Word16, max: Word16 ::
                reply == ThresholdText(current, min, max) ==>
                  && r.Ok? && answer == eThreshold == current
                  && thresholdMin == (if old(thresholdMax) == 0xFFFF then min else old(thresholdMin))
                  && thresholdMax == (if old(thresholdMax) == 0xFFFF then max else old(thresholdMax))
      ensures Unclear(reply) ==>
                forall current: Word16, min: Word16, max: Word16 ::
                  second == ThresholdText(current, min, max) ==>
                    r.Ok? && answer == eThreshold == current && thresholdMin == min && thresholdMax == max
      ensures r.Ok? && Unclear(reply) ==>
                second != [] && ThresholdReply(second, eThreshold, thresholdMin, thresholdMax)
      ensures r.Ok? && (reply[0] == '*' || reply[0] == '?') ==> answer == eThreshold
      ensures r.Ok? && reply[0] != '*' ==>
                eThreshold == old(eThreshold) && thresholdMin == old(thresholdMin) && thresholdMax == old(thresholdMax)
      ensures r.Ok? && reply[0] != '*' && reply[0] != '?' ==> answer == answer0
      ensures r.Ok? && reply[0] == '*' && |Tokens(reply[1..], " ")| == 3 ==>
                Field16(Tokens(reply[1..], " "), 0) == Ok(eThreshold)
      ensures r.Ok? && reply[0] == '*' && |Tokens(reply[1..], " ")| == 3 ==>
                if old(thresholdMax) == 0xFFFF then
                  && Field16(Tokens(reply[1..], " "), 1) == Ok(thresholdMin)
                  && Field16(Tokens(reply[1..], " "), 2) == Ok(thresholdMax)
                else thresholdMin == old(thresholdMin) && thresholdMax == old(thresholdMax)
    {
      hide SentBytes, HeardBytes, Field16, Tokens, Asked, Offers, ThresholdText;
      answer, reply, second := answer0, [], [];
      var asked := Ask("UT " + Dec(value));
      mid := dev.serial.log;
      var rr :- asked;
      reply := rr;
      forall current: Word16, min: Word16, max: Word16 | rr == ThresholdText(current, min, max)
        ensures rr != [] && rr[0] == '*' && |Tokens(rr[1..], " ")| == 3 && ThresholdReply(rr, current, min, max)
      {
        ReadsThreshold(current, min, max);
      }
      if rr == [] {
        return Throw(OutOfRange), answer, reply, mid, second;
      }
      if rr[0] == '?' {
        answer := eThreshold;
        return Ok(()), answer, reply, mid, second;
      }
      if rr[0] == '*' {
        var tokens := Tokens(rr[1..], " ");
        if |tokens| == 3 {
          var v :- Field16(tokens, 0);
          answer := v;
          eThreshold := answer;
          if thresholdMax == 0xFFFF {
            var min :- Field16(tokens, 1);
            thresholdMin := min;
            var max :- Field16(tokens, 2);
            thresholdMax := max;
          }
        } else {
          var all;
          all, second := QueryUserThreshold();
          if !all.Ok? {
            return all.PropagateFailure(), answer, reply, mid, second;
          }
          answer := all.value.0;
        }
      }
      return Ok(()), answer, reply, mid, second;
    }

    /** A success whose answer is not the three numbers. */
    static predicate Unclear(reply: string) {
      reply != [] && reply[0] == '*' && |Tokens(reply[1..], " ")| != 3
    }

    // -----------------------------------------------------------------------
    // Option tables
    // -----------------------------------------------------------------------

    /** Refills the range table from the reply: the entries behind the current
        setting, numbered from 0 as long as they fit an `int16_t`. */
    method GetAllRanges() returns (r: Result<int>, ghost reply: string)
      requires Valid()
      modifies this`ranges
      modifies dev.serial`log, dev.serial.impl`fd, dev.serial.impl`isOpen, dev.serial.impl`leaked, dev.serial.impl.os
      ensures Valid()
      ensures Asked(old(dev.serial.log), dev.serial.log, dev.Message("AR"), reply)
      ensures Offers(old(dev.serial.log), dev.serial.log, dev.Message("AR")) || r.Cut? ||
              (r.Throw? && !dev.serial.impl.isOpen)
      ensures !r.Ok? ==> ranges == old(ranges)
      ensures forall current, options, pad ::
                -INT16_LIMIT <= current < INT16_LIMIT && Listing(options) && Blank(pad) &&
                reply == RangesText(current, options, pad) ==>
                  r == Ok(current) && ranges == Numbered(options, 0)
      ensures r.Ok? ==> reply != []
      ensures r.Ok? ==>
                var tokens := Tokens(Trim(reply[1..]), " ");
                && |tokens| > 0 && StoL(tokens[0]).Ok? && r.value == ToInt16(StoL(tokens[0]).value % UINT16_LIMIT)
                && (ranges == Numbered(tokens[1..], 0) <==> |tokens| <= INT16_LIMIT + 1)
    {
      hide SentBytes, HeardBytes, Tokens, Numbered, Trim, StoL, Asked, Offers, RangesText, ToInt16;
      reply := [];
      var resp :- Ask("AR");
      reply := resp;
      forall current, options, pad | -INT16_LIMIT <= current < INT16_LIMIT && Listing(options) && Blank(pad) &&
                                     resp == RangesText(current, options, pad)
        ensures ReadsRanges(resp, current, options)
      {
        RangesRead(current, options, pad);
      }
      if resp == [] {
        return Throw(OutOfRange), reply;
      }
      var tokens := Tokens(Trim(resp[1..]), " ");
      TokenCount(Trim(resp[1..]), " ");
      var current :- StoL(tokens[0]);
      var filled := FillRanges(tokens[1..]);
      ranges := filled;
      return Ok(ToInt16(current % UINT16_LIMIT)), reply;
    }

    static predicate ReadsRanges(reply: string, current: int, options: seq<string>) {
      && reply != [] && Tokens(Trim(reply[1..]), " ") == [DecInt(current)] + options && |reply| > 2 * |options|
      && StoL(DecInt(current)) == Ok(current) && ToInt16(current % UINT16_LIMIT) == current
    }

    static lemma RangesRead(current: int, options: seq<string>, pad: string)
      requires -INT16_LIMIT <= current < INT16_LIMIT && Listing(options) && Blank(pad)
      ensures ReadsRanges(RangesText(current, options, pad), current, options)
    {
      RangesTokens(current, options, pad);
      StoLInvertsPrint(current);
      Int16Back(current);
    }

    /** Queries or sets the pulse length.  The table is filled by the first query
        that finds it empty, with keys exactly 1, 2, ..., and is never touched
        again. */
    method PulseLength(value: nat) returns (r: Result<nat>, ghost reply: string)
      requires Valid() && value < UINT16_LIMIT
      modifies this`pulseLengths
      modifies dev.serial`log, dev.serial.impl`fd, dev.serial.impl`isOpen, dev.serial.impl`leaked, dev.serial.impl.os
      ensures Valid()
      ensures Asked(old(dev.serial.log), dev.serial.log, dev.Message("PL " + Dec(value)), reply)
      ensures Offers(old(dev.serial.log), dev.serial.log, dev.Message("PL " + Dec(value))) || r.Cut? ||
              (r.Throw? && !dev.serial.impl.isOpen)
      ensures r.Ok? ==> reply != []
      ensures reply != [] ==> r == if value != 0 && reply[0] == '*' then Ok(value) else DigitAt(reply, 1)
      ensures old(pulseLengths) == map[] && value == 0 ==>
                forall current: nat, gap, options, pad ::
                  current < 10 && Blank(gap) && Listing(options) && Blank(pad) &&
                  reply == OptionsText(current, gap, options, pad) ==>
                    r == Ok(current) && pulseLengths == Numbered(options, 1)
      ensures old(pulseLengths) != map[] || value != 0 || !r.Ok? ==> pulseLengths == old(pulseLengths)
      ensures old(pulseLengths) == map[] && value == 0 && r.Ok? ==>
                && |reply| >= 2 && pulseLengths == Numbered(Tokens(Trim(reply[2..]), " "), 1)
                && pulseLengths != map[]
    {
      hide SentBytes, HeardBytes, Tokens, Numbered, Trim, StoUL, Asked, Offers, OptionsText, DigitAt, Substr1;
      reply := [];
      var resp :- Ask("PL " + Dec(value));
      reply := resp;
      forall current: nat, gap, options, pad | current < 10 && Blank(gap) && Listing(options) && Blank(pad) &&
                                               resp == OptionsText(current, gap, options, pad)
        ensures ReadsOptions(resp, current, options)
      {
        OptionsRead(current, gap, options, pad);
      }
      if resp == [] {
        return Throw(OutOfRange), reply;
      }
      if value != 0 && resp[0] == '*' {
        return Ok(value), reply;
      }
      OneCharNumber(resp, 1);
      var answer :- StoUL(Substr1(resp, 1));
      if value == 0 && pulseLengths == map[] {
        FewTokens(resp[2..]);
        var tokens := Tokens(Trim(resp[2..]), " ");
        var filled := FillFromOne(tokens);
        NumberedEmptyIff(tokens, 1);
        pulseLengths := filled;
      }
      return Ok(answer), reply;
    }

    static predicate ReadsOptions(reply: string, current: nat, options: seq<string>) {
      |reply| >= 2 && DigitAt(reply, 1) == Ok(current) && Tokens(Trim(reply[2..]), " ") == options
    }

    static lemma OptionsRead(current: nat, gap: string, options: seq<string>, pad: string)
      requires current < 10 && Blank(gap) && Listing(options) && Blank(pad)
      ensures ReadsOptions(OptionsText(current, gap, options, pad), current, options)
    {
      OptionsTokens(current, gap, options, pad);
      hide Tokens, Trim, Join;
      assert OptionsText(current, gap, options, pad)[1] == Digit(current);
    }

    /** `resp.substr(i, 1)`, for a position inside or right behind the text. */
    static function Substr1(resp: string, i: nat): string {
      if i < |resp| then [resp[i]] else []
    }

    /** One character read as a number is a digit. */
    static lemma OneCharNumber(resp: string, i: nat)
      ensures StoUL(Substr1(resp, i)) == DigitAt(resp, i)
    {
      var s := Substr1(resp, i);
      if s != [] && IsDigit(s[0]) {
        ReadDigits(s, false);
        assert s[..0] == [];
      } else if s != [] && s[0] in WHITESPACE {
        assert s[1..] == [] && LTrim(s) == LTrim([]) == [];
      } else if s != [] {
        assert LTrim(s) == s && s[1..] == [];
      }
    }

    static lemma FewTokens(s: string)
      requires |s| < MAX_LINE
      ensures 1 <= |Tokens(Trim(s), " ")| < UINT16_LIMIT
    {
      TrimShortens(s);
      TrimShortens(LTrim(s));
      hide LTrim, RTrim, Tokens;
      TokenCount(Trim(s), " ");
    }

    /** Queries or sets the averaging window.  The table is filled once, from the
        entry "NONE" on, with the words of the reply under 1, 2, ... */
    method AverageQuery(q: nat) returns (r: Result<nat>, ghost reply: string)
      requires Valid() && q < UINT16_LIMIT
      modifies this`aveWindows
      modifies dev.serial`log, dev.serial.impl`fd, dev.serial.impl`isOpen, dev.serial.impl`leaked, dev.serial.impl.os
      ensures Valid()
      ensures Asked(old(dev.serial.log), dev.serial.log, dev.Message("AQ " + Dec(q)), reply)
      ensures Offers(old(dev.serial.log), dev.serial.log, dev.Message("AQ " + Dec(q))) || r.Cut? ||
              (r.Throw? && !dev.serial.impl.isOpen)
      ensures r.Ok? ==> r == DigitAt(reply, 2)
      ensures |reply| >= 2 && (old(aveWindows) != map[] || Find(reply, "NONE") >= 0) ==> r == DigitAt(reply, 2)
      ensures old(aveWindows) == map[] ==>
                forall head, windows ::
                  'N' !in head && Windows(windows) && DigitAt(head, 2).Ok? && reply == WindowsText(head, windows) ==>
                    r == DigitAt(head, 2) && aveWindows == Numbered(CommandLine.NonEmpty(windows), 1)
      ensures old(aveWindows) != map[] || !r.Ok? ==> aveWindows == old(aveWindows)
      ensures old(aveWindows) == map[] && r.Ok? ==>
                var p := Find(reply, "NONE");
                p >= 0 && aveWindows == Numbered(NonBlank(Tokens(reply[p..], " ")), 1)
    {
      hide SentBytes, HeardBytes, Tokens, Numbered, Trim, StoUL, NonBlank, Asked, Offers, WindowsText, DigitAt, Substr1;
      hide CommandLine.NonEmpty, Find;
      reply := [];
      var resp :- Ask("AQ " + Dec(q));
      reply := resp;
      forall head, windows | 'N' !in head && Windows(windows) && DigitAt(head, 2).Ok? &&
                             resp == WindowsText(head, windows)
        ensures ReadsWindows(resp, head, windows)
      {
        WindowsRead(head, windows);
      }
      if |resp| < 2 {
        return Throw(OutOfRange), reply;
      }
      OneCharNumber(resp, 2);
      var a :- StoUL(Substr1(resp, 2));
      if aveWindows == map[] {
        var p := Find(resp, "NONE");
        if p < 0 {
          return Throw(OutOfRange), reply;
        }
        TokenCount(resp[p..], " ");
        var filled := FillWords(Tokens(resp[p..], " "));
        aveWindows := filled;
      }
      return Ok(a), reply;
    }

    static predicate ReadsWindows(reply: string, head: string, windows: seq<string>) {
      && |head| <= |reply| && |reply| >= 2 && Find(reply, "NONE") == |head| && DigitAt(reply, 2) == DigitAt(head, 2)
      && NonBlank(Tokens(reply[|head|..], " ")) == CommandLine.NonEmpty(windows)
    }

    static lemma WindowsRead(head: string, windows: seq<string>)
      requires 'N' !in head && Windows(windows) && DigitAt(head, 2).Ok?
      ensures ReadsWindows(WindowsText(head, windows), head, windows)
    {
      WindowsTokens(head, windows);
    }

    /** `energy_threshold`: one digit of the reply is the threshold. */
    method EnergyThreshold(value: nat) returns (r: Result<nat>, ghost reply: string)
      requires Valid()
      modifies this`eThreshold
      modifies dev.serial`log, dev.serial.impl`fd, dev.serial.impl`isOpen, dev.serial.impl`leaked, dev.serial.impl.os
      ensures Valid()
      ensures Asked(old(dev.serial.log), dev.serial.log, dev.Message("ET " + Dec(value)), reply)
      ensures Offers(old(dev.serial.log), dev.serial.log, dev.Message("ET " + Dec(value))) || r.Cut? ||
              (r.Throw? && !dev.serial.impl.isOpen)
      ensures reply != [] ==> r == DigitAt(reply, 1)
      ensures r.Ok? ==> reply != [] && r.value == eThreshold
      ensures !r.Ok? ==> eThreshold == old(eThreshold)
    {
      hide SentBytes, HeardBytes, StoUL, Asked, Offers, Substr1;
      reply := [];
      var resp :- Ask("ET " + Dec(value));
      reply := resp;
      if resp == [] {
        return Throw(OutOfRange), reply;
      }
      OneCharNumber(resp, 1);
      var answer :- StoUL(Substr1(resp, 1));
      eThreshold := answer;
      return Ok(answer), reply;
    }

    // -----------------------------------------------------------------------
    // Measurement mode
    // -----------------------------------------------------------------------

    /** `std::stoi` to a `uint16_t`. */
    static function StoI16(s: string): Result<nat> {
      var v :- StoL(s);
      if IsInt32(v) then Ok(v % UINT16_LIMIT) else Throw(OutOfRange)
    }

    /** Sets the mode, or with 0 asks for it.  An accepted request returns the
        mode asked for; a refused one is followed by a query, in a transaction of
        its own, whose answer is returned. */
    method MeasurementMode(q: nat)
      returns (r: Result<nat>, ghost reply: string, ghost mid: seq<Event>, ghost second: string)
      requires Valid() && q < UINT16_LIMIT
      modifies dev.serial`log, dev.serial.impl`fd, dev.serial.impl`isOpen, dev.serial.impl`leaked, dev.serial.impl.os
      ensures Valid()
      ensures Asked(old(dev.serial.log), mid, dev.Message("MM " + Dec(q)), reply)
      ensures Offers(old(dev.serial.log), mid, dev.Message("MM " + Dec(q))) || r.Cut? ||
              (r.Throw? && !dev.serial.impl.isOpen)
      ensures !Denied(q, reply) ==> mid == dev.serial.log
      ensures Denied(q, reply) ==> Asked(mid, dev.serial.log, dev.Message("MM 0"), second)
      ensures Denied(q, reply) ==> Offers(mid, dev.serial.log, dev.Message("MM 0")) || r.Cut? ||
                                   (r.Throw? && !dev.serial.impl.isOpen)
      ensures r.Ok? ==> Trim(reply) != []
      ensures q != 0 && Trim(reply) != [] && Trim(reply)[0] == '*' ==> r == Ok(q)
      ensures forall a, mode: Word16, b ::
                Blank(a) && Blank(b) &&
                (if q == 0 then reply else if Denied(q, reply) then second else []) == ModeText(a, mode, b) ==>
                  r == Ok(mode)
      ensures r.Ok? && q == 0 ==> r == StoI16(Trim(reply)[1..])
      ensures r.Ok? && Denied(q, reply) ==> Trim(second) != [] && r == StoI16(Trim(second)[1..])
      decreases q
    {
      hide SentBytes, HeardBytes, StoI16, Trim, Asked, Offers, ModeText;
      reply, second := [], [];
      NoMode();
      var asked := Ask("MM " + Dec(q));
      mid := dev.serial.log;
      var raw :- asked;
      reply := raw;
      forall a, mode: Word16, b | Blank(a) && Blank(b) && raw == ModeText(a, mode, b)
        ensures Trim(raw) != [] && StoI16(Trim(raw)[1..]) == Ok(mode)
      {
        ModeRead(a, mode, b);
      }
      var resp := Trim(raw);
      if resp == [] {
        return Throw(OutOfRange), reply, mid, second;
      }
      if q == 0 {
        r := StoI16(resp[1..]);
      } else if resp[0] == '*' {
        r := Ok(q);
      } else {
        ghost var m, s;
        r, second, m, s := MeasurementMode(0);
      }
    }

    /** A request to set the mode that was answered, but not with a success. */
    static predicate Denied(q: nat, reply: string) {
      q != 0 && Trim(reply) != [] && Trim(reply)[0] != '*'
    }

    static lemma NoMode()
      ensures Trim([]) == [] && "MM " + Dec(0) == "MM 0"
    {
    }

    static lemma ModeRead(a: string, mode: Word16, b: string)
      requires Blank(a) && Blank(b)
      ensures var resp := Trim(ModeText(a, mode, b));
              resp != [] && StoI16(resp[1..]) == Ok(mode)
    {
      hide Trim, ModeText, StoL, Dec;
      ModeTrimmed(a, mode, b);
      StoLInvertsPrint(mode);
      assert ("*" + Dec(mode))[1..] == Dec(mode);
    }

    // -----------------------------------------------------------------------
    // Runs
    // -----------------------------------------------------------------------

    method Perform(op: MeterOp)
      requires Valid() && op.value < UINT16_LIMIT
      modifies this
      modifies dev.serial`log, dev.serial.impl`fd, dev.serial.impl`isOpen, dev.serial.impl`leaked, dev.serial.impl.os
      ensures Valid()
      ensures old(pulseLengths) != map[] ==> pulseLengths == old(pulseLengths)
      ensures old(aveWindows) != map[] ==> aveWindows == old(aveWindows)
    {
      hide Valid;
      match op {
        case AskRanges(_) => var _, _ := GetAllRanges();
        case AskPulse(v) => var _, _ := PulseLength(v);
        case AskAverage(v) => var _, _ := AverageQuery(v);
        case AskThreshold(_) => var _, _ := QueryUserThreshold();
        case SetThreshold(v) => var _, _, _, _, _ := UserThreshold(v, 0);
        case SetEnergyThreshold(v) => var _, _ := EnergyThreshold(v);
        case SetMode(v) => var _, _, _, _ := MeasurementMode(v);
      }
    }

    /** Over every run, once the pulse and averaging tables hold anything they
        stay as they are, and the cached thresholds stay 16-bit. */
    method Run(ops: seq<MeterOp>)
      requires Valid() && forall op <- ops :: op.value < UINT16_LIMIT
      modifies this
      modifies dev.serial`log, dev.serial.impl`fd, dev.serial.impl`isOpen, dev.serial.impl`leaked, dev.serial.impl.os
      ensures Valid()
      ensures old(pulseLengths) != map[] ==> pulseLengths == old(pulseLengths)
      ensures old(aveWindows) != map[] ==> aveWindows == old(aveWindows)
    {
      hide Valid;
      for i := 0 to |ops|
        invariant Valid()
        invariant old(pulseLengths) != map[] ==> pulseLengths == old(pulseLengths)
        invariant old(aveWindows) != map[] ==> aveWindows == old(aveWindows)
      {
        Perform(ops[i]);
      }
    }
  }

  datatype MeterOp =
    | AskRanges(value: nat)
    | AskPulse(value: nat)
    | AskAverage(value: nat)
    | AskThreshold(value: nat)
    | SetThreshold(value: nat)
    | SetEnergyThreshold(value: nat)
    | SetMode(value: nat)
}
