/** What the device sees: the bytes the kernel took, cut at the terminator.  They
    are the messages of the conversation exactly as long as no write was cut short
    in the middle. */
module Frames {
  import opened Outcome
  import opened Text
  import opened Kernel
  import opened UnixPort
  import opened SerialPort
  import opened DeviceLine
  import opened Transcript
  import opened Decimal
  import opened MotorModel

  /** A message is a body and the terminator, which is nowhere else in it. */
  predicate Message(msg: string, term: char) {
    msg != [] && msg[|msg| - 1] == term && term !in msg[..|msg| - 1]
  }

  predicate FramedEvent(e: Event, term: char) {
    e.Sent? ==> Message(e.msg, term) && e.n <= |e.msg|
  }

  /** Every write in the log offered one message. */
  predicate Framed(log: seq<Event>, term: char) {
    forall i :: 0 <= i < |log| ==> FramedEvent(log[i], term)
  }

  /** Of every write the kernel took all or nothing. */
  predicate NoPieces(log: seq<Event>) {
    forall i :: 0 <= i < |log| && log[i].Sent? ==> log[i].n == 0 || log[i].n == |log[i].msg|
  }

  /** The messages of a conversation, without their terminators. */
  function Bodies(d: seq<Item>): seq<string> {
    if d == [] then []
    else Bodies(d[..|d| - 1]) + Body(d[|d| - 1])
  }

  function Body(x: Item): seq<string> {
    if x.Msg? && x.text != [] then [x.text[..|x.text| - 1]] else []
  }

  lemma BodiesSnoc(d: seq<Item>, x: Item)
    ensures Bodies(d + [x]) == Bodies(d) + Body(x)
  {
    hide Body;
    assert (d + [x])[..|d|] == d;
  }

  /** The bytes of whole messages: their bodies, each closed by the terminator. */
  function Closed(bodies: seq<string>, term: char): string {
    Join(bodies + [""], [term])
  }

  lemma {:induction false} ClosedSnoc(bodies: seq<string>, body: string, term: char)
    ensures Closed(bodies + [body], term) == Closed(bodies, term) + body + [term]
  {
    if bodies == [] {
      assert [body] + [""] == [body, ""] && [body, ""][1..] == [""];
      assert [] + [body] == [body] && [] + [""] == [""];
      assert Join([body, ""], [term]) == body + [term] + Join([""], [term]);
    } else {
      var first, rest := bodies[0], bodies[1..];
      ClosedSnoc(rest, body, term);
      ClosedCons(first, rest, term);
      ClosedCons(first, rest + [body], term);
      assert bodies == [first] + rest && bodies + [body] == [first] + (rest + [body]);
      var head := first + [term];
      assert head + (Closed(rest, term) + body + [term]) == head + Closed(rest, term) + body + [term];
    }
  }

  lemma ClosedCons(first: string, rest: seq<string>, term: char)
    ensures Closed([first] + rest, term) == first + [term] + Closed(rest, term)
  {
    var ts := [first] + rest + [""];
    assert ts[0] == first && ts[1..] == rest + [""];
  }

  /** The bytes taken are at least the whole messages, and just those when nothing
      was cut. */
  lemma {:induction false} BytesOfMessages(log: seq<Event>, term: char)
    requires Framed(log, term)
    ensures |SentBytes(log)| >= |Closed(Bodies(Digest(log)), term)|
    ensures |SentBytes(log)| == |Closed(Bodies(Digest(log)), term)| ==> NoPieces(log)
    ensures NoPieces(log) ==> SentBytes(log) == Closed(Bodies(Digest(log)), term)
    ensures forall b <- Bodies(Digest(log)) :: term !in b
  {
    if log == [] {
      assert [] + [""] == [""];
    } else {
      var k := |log| - 1;
      var was, e := log[..k], log[k];
      assert log == was + [e] && FramedEvent(e, term);
      BytesOfMessages(was, term);
      EventBytesOfMessages(Digest(was), e, term);
      BytesSnoc(was, e);
      DigestSnoc(was, e);
      hide SentBytes, Digest, Bodies, Closed, EventBytes, Visible;
      PiecesSnoc(was, e);
    }
  }

  lemma PiecesSnoc(log: seq<Event>, e: Event)
    ensures NoPieces(log + [e]) <==> NoPieces(log) && (e.Sent? ==> e.n == 0 || e.n == |e.msg|)
  {
    var all := log + [e];
    assert all[|log|] == e;
    assert forall i :: 0 <= i < |log| ==> all[i] == log[i];
  }

  /** One event: what the kernel took against what becomes visible. */
  lemma EventBytesOfMessages(d: seq<Item>, e: Event, term: char)
    requires FramedEvent(e, term)
    ensures var more := |Closed(Bodies(d + Visible(e)), term)| - |Closed(Bodies(d), term)|;
      |EventBytes(e)| >= more && (|EventBytes(e)| == more <==> e.Sent? ==> e.n == 0 || e.n == |e.msg|)
    ensures (e.Sent? ==> e.n == 0 || e.n == |e.msg|) ==>
              Closed(Bodies(d + Visible(e)), term) == Closed(Bodies(d), term) + EventBytes(e)
    ensures (forall b <- Bodies(d) :: term !in b) ==> forall b <- Bodies(d + Visible(e)) :: term !in b
  {
    hide Bodies, Closed;
    if e.Sent? && e.n == |e.msg| {
      var body := e.msg[..|e.msg| - 1];
      BodiesSnoc(d, Msg(e.msg));
      ClosedSnoc(Bodies(d), body, term);
      assert e.msg == body + [term] && EventBytes(e) == e.msg;
      assert Closed(Bodies(d), term) + e.msg == Closed(Bodies(d), term) + body + [term];
    } else if Visible(e) == [] {
      assert d + Visible(e) == d;
      assert Closed(Bodies(d), term) + [] == Closed(Bodies(d), term);
    } else {
      BodiesSnoc(d, Line(e.bytes));
      assert Bodies(d) + [] == Bodies(d);
      assert Closed(Bodies(d), term) + [] == Closed(Bodies(d), term);
    }
  }

  /** The frames the device sees are the messages of the conversation, with nothing
      left over, if and only if no write was cut in the middle. */
  lemma FramesAreMessagesIff(log: seq<Event>, term: char)
    requires Framed(log, term)
    ensures Tokens(SentBytes(log), [term]) == Bodies(Digest(log)) + [""] <==> NoPieces(log)
  {
    var bytes, bodies := SentBytes(log), Bodies(Digest(log));
    BytesOfMessages(log, term);
    hide SentBytes, Digest, Bodies, Tokens, Join, NoPieces;
    TokensRejoin(bytes, [term]);
    if NoPieces(log) {
      TokensInvertJoin(bodies + [""], term);
    }
  }

  /** An input where it matters.  The kernel takes three bytes of "m 100" and has no
      time for more; after the reset it takes all.  The call succeeds, and the
      conversation holds a move by 100; the one frame the device sees is a move by 1. */
  method GarbledMove() returns (r: Result<bool>, ghost log: seq<Event>, ghost bytes: string)
    ensures r == Ok(true) && Digest(log) == [Msg("m 100\r")] && Decode("m 100\r") == Move(100)
    ensures bytes == "m 1m 100\r" && Decode(bytes) == Move(1)
    ensures bytes == SentBytes(log) && !NoPieces(log)
  {
    var dev := GarblingDevice();
    MoveText(dev);
    hide Digest, SentBytes, HeardBytes, Decode, Device.Garbles, NoPieces, RetryTrace;
    ghost var t;
    r, t := dev.WriteRetrying("m 100", true);
    log, bytes := dev.serial.log, dev.serial.impl.os.accepted;
    assert [] + t == t;
    RetryDigest(t, "m 100\r", true);
    GarbledBytes();
    GarbledTexts();
  }

  lemma MoveText(dev: Device)
    requires dev.pre == "" && dev.sfx == "\r"
    ensures dev.Message("m 100") == "m 100\r"
    ensures !NoPieces([Sent("m 100\r", 3), Reset, Sent("m 100\r", 6)])
  {
    assert "" + "m 100" + "\r" == "m 100\r";
    assert [Sent("m 100\r", 3), Reset, Sent("m 100\r", 6)][0].Sent?;
  }

  method GarblingDevice() returns (dev: Device)
    ensures fresh(dev) && fresh(dev.serial) && fresh(dev.serial.impl) && fresh(dev.serial.impl.os)
    ensures dev.Valid() && dev.serial.log == [] && dev.pre == "" && dev.sfx == "\r"
    ensures dev.Garbles(6) && dev.serial.impl.os.script[3].ret == 3
  {
    var os := new Os(GarblingScript(), "");
    var serial := new Serial(os, "tty", Timeout(0, 0, 0, 0, 0));
    dev := new Device(serial, "", "\r", "\n\r");
    hide SentBytes, HeardBytes, GarblingScript;
    var port := serial.impl.Open();
    assert os.live == {1} && WriteBudget(serial.impl.timeout, 6) == 0;
  }

  /** Open and configure; two flushes, ready, three bytes; close, open, configure;
      two flushes, ready, six bytes. */
  function GarblingScript(): (script: seq<Answer>)
    ensures Opens(script, {}) && |script| == 13
    ensures var rest := script[2..];
      && TakesMessage(rest) && rest[3].ret == 3 && script[0].ret == 1
      && Device.Recovers(rest[4..], {1}, 6)
  {
    var fine, closed := Answer(1, false, true, 0), Answer(0, false, true, 0);
    var again, piece, all := Answer(2, false, true, 0), Answer(3, false, true, 0), Answer(6, false, true, 0);
    [fine, fine, fine, fine, fine, piece, closed, again, fine, fine, fine, fine, all]
  }

  lemma GarbledBytes()
    ensures SentBytes([Sent("m 100\r", 3), Reset, Sent("m 100\r", 6)]) == "m 1m 100\r"
  {
    var a, b, c := Sent("m 100\r", 3), Reset, Sent("m 100\r", 6);
    assert EventBytes(a) == "m 1" && EventBytes(b) == "" && EventBytes(c) == "m 100\r";
    hide SentBytes, EventBytes;
    TwoEventBytes(a, b);
    BytesSnoc([a, b], c);
    assert [a, b] + [c] == [a, b, c];
    assert "m 1" + "" + "m 100\r" == "m 1m 100\r";
  }

  lemma GarbledTexts()
    ensures Decode("m 100\r") == Move(100) && Decode("m 1m 100\r") == Move(1)
  {
    hide Value, StoL, Decode;
    SmallValues();
    LeadingNumber("100", "", 100);
    LeadingNumber("1", "m 100", 1);
    DecodeMove("100" + "", 100);
    DecodeMove("1" + "m 100", 1);
    assert "m " + ("100" + "") + "\r" == "m 100\r";
    assert "m " + ("1" + "m 100") + "\r" == "m 1m 100\r";
  }

  lemma SmallValues()
    ensures Value("1") == 1 && Value("100") == 100
  {
    assert "1"[..0] == "" && "10"[..1] == "1" && "100"[..2] == "10";
    assert Value("1") == 1;
    assert Value("10") == 10;
  }

  /** `stol` reads the digits in front and ignores what follows. */
  lemma LeadingNumber(digits: string, rest: string, x: nat)
    requires digits != [] && AllDigits(digits) && (rest == [] || !IsDigit(rest[0]))
    requires Value(digits) == x < INT64_LIMIT
    ensures StoL(digits + rest) == Ok(x)
  {
    var s := digits + rest;
    LeadingDigits(digits, rest);
    assert s[0] == digits[0] && LTrim(s) == s && !Signed(s);
    assert s[..|digits|] == digits;
  }

  lemma {:induction false} LeadingDigits(digits: string, rest: string)
    requires AllDigits(digits) && (rest == [] || !IsDigit(rest[0]))
    ensures DigitRun(digits + rest) == |digits|
  {
    if digits == [] {
      assert digits + rest == rest;
    } else {
      LeadingDigits(digits[1..], rest);
      assert (digits + rest)[1..] == digits[1..] + rest;
    }
  }

  lemma DecodeMove(arg: string, x: int)
    requires arg != [] && StoL(arg) == Ok(x)
    ensures Decode("m " + arg + "\r") == Move(x)
  {
    var text := "m " + arg + "\r";
    assert text[2..|text| - 1] == arg && text[0] == 'm' && text[1] == ' ';
  }

  // -------------------------------------------------------------------------
  // The log keeps its frames
  // -------------------------------------------------------------------------

  lemma FramedAppend(log: seq<Event>, t: seq<Event>, term: char)
    requires Framed(log, term) && Framed(t, term)
    ensures Framed(log + t, term)
  {
    hide FramedEvent;
  }

  lemma QuietFramed(log: seq<Event>, e: Event, term: char)
    requires !e.Sent?
    ensures Framed(log, term) ==> Framed(log + [e], term)
  {
  }

  lemma RetryFramed(t: seq<Event>, body: string, term: char, done: bool)
    requires RetryTrace(t, body + [term], done) && term !in body
    ensures Framed(t, term)
  {
    var msg := body + [term];
    assert msg[..|msg| - 1] == body;
  }
}
