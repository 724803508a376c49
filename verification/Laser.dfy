/** The laser driver: setters that write with one retry and then cache, and what
    the cache means in terms of the messages the laser got. */
module LaserDriver {
  import opened Outcome
  import opened Text
  import opened Decimal
  import opened Kernel
  import opened Lines
  import opened SerialPort
  import opened DeviceLine
  import opened Transcript
  import opened Frames

  // -------------------------------------------------------------------------
  // The laser's side of the wire
  // -------------------------------------------------------------------------

  /** The number in a message "XX nnn" + terminator, if the tag fits. */
  function Tagged(text: string, tag: string): Option<nat> {
    if |tag| < |text| && text[..|tag|] == tag && text[|text| - 1] == '\r'
       && AllDigits(text[|tag|..|text| - 1]) && |tag| + 1 < |text|
    then Some(Value(text[|tag|..|text| - 1]))
    else None
  }

  datatype Shadow = Shadow(prescale: nat, qswitch: nat, firing: bool)

  /** What one message does to the laser's settings. */
  function Apply(s: Shadow, x: Item): Shadow {
    if !x.Msg? then s
    else if Tagged(x.text, "PD ").Some? then s.(prescale := Tagged(x.text, "PD ").value)
    else if Tagged(x.text, "QS ").Some? then s.(qswitch := Tagged(x.text, "QS ").value)
    else if Tagged(x.text, "ST ").Some? then s.(firing := Tagged(x.text, "ST ").value != 0)
    else s
  }

  /** The laser's settings after a conversation: power-on values, then the last
      whole message of each kind. */
  function Settings(d: seq<Item>): Shadow {
    if d == [] then Shadow(0, 170, false) else Apply(Settings(d[..|d| - 1]), d[|d| - 1])
  }

  predicate DisciplinedAt(d: seq<Item>, i: nat)
    requires i < |d|
  {
    && (d[i].Msg? && Tagged(d[i].text, "PD ").Some? ==> Tagged(d[i].text, "PD ").value <= 99)
    && (d[i] == Msg("SS\r") ==> i > 0 && d[i - 1] == Msg("PD 000\r"))
  }

  /** No prescale above 99 was ever sent, and every single-shot command directly
      follows a prescale of zero. */
  ghost predicate Disciplined(d: seq<Item>) {
    forall i :: 0 <= i < |d| ==> DisciplinedAt(d, i)
  }

  lemma SettingsSnoc(d: seq<Item>, x: Item)
    ensures Settings(d + [x]) == Apply(Settings(d), x)
  {
    hide Apply;
    assert (d + [x])[..|d|] == d;
  }

  /** What may be sent next. */
  predicate Allowed(d: seq<Item>, x: Item) {
    && (x.Msg? && Tagged(x.text, "PD ").Some? ==> Tagged(x.text, "PD ").value <= 99)
    && (x == Msg("SS\r") ==> |d| > 0 && d[|d| - 1] == Msg("PD 000\r"))
  }

  lemma DisciplinedSnoc(d: seq<Item>, x: Item)
    requires Disciplined(d) && Allowed(d, x)
    ensures Disciplined(d + [x])
  {
    hide Tagged;
    var e := d + [x];
    forall i | 0 <= i < |e|
      ensures DisciplinedAt(e, i)
    {
      if i < |d| {
        assert DisciplinedAt(d, i);
      }
    }
  }

  // -------------------------------------------------------------------------
  // Message texts
  // -------------------------------------------------------------------------

  lemma TaggedReads(tag: string, digits: string)
    requires digits != [] && AllDigits(digits)
    ensures Tagged(tag + digits + "\r", tag) == Some(Value(digits))
  {
    var text := tag + digits + "\r";
    assert text[..|tag|] == tag;
    assert text[|tag|..|text| - 1] == digits;
  }

  lemma OtherTag(text: string, tag: string)
    requires 0 < |tag| <= |text| && text[..|tag|] != tag
    ensures Tagged(text, tag) == None
  {
  }

  function PrescaleCommand(n: nat): string {
    "PD " + Pad3(n)
  }

  function PrescaleMessage(n: nat): string {
    PrescaleCommand(n) + "\r"
  }

  function QswitchCommand(n: nat): string {
    "QS " + Pad3(n)
  }

  function QswitchMessage(n: nat): string {
    QswitchCommand(n) + "\r"
  }

  /** "PD nnn" may always be sent for n up to 99, and sets the prescale. */
  lemma PrescaleText(d: seq<Item>, s: Shadow, n: nat)
    requires n <= 99
    ensures Allowed(d, Msg(PrescaleMessage(n)))
    ensures Apply(s, Msg(PrescaleMessage(n))) == s.(prescale := n)
    ensures |PrescaleCommand(n)| + 1 == |PrescaleMessage(n)| == 7
    ensures PrescaleCommand(n) + "\r" == PrescaleMessage(n) && '\r' !in PrescaleCommand(n)
  {
    Pad3Value(n);
    TaggedReads("PD ", Pad3(n));
    var text := "PD " + Pad3(n) + "\r";
    assert text[0] == 'P';
    hide Tagged, Pad3;
  }

  /** "QS nnn" may always be sent, and sets the Q-switch delay. */
  lemma QswitchText(d: seq<Item>, s: Shadow, n: nat)
    requires n <= 999
    ensures Allowed(d, Msg(QswitchMessage(n)))
    ensures Apply(s, Msg(QswitchMessage(n))) == s.(qswitch := n)
    ensures |QswitchCommand(n)| + 1 == |QswitchMessage(n)| == 7
    ensures QswitchCommand(n) + "\r" == QswitchMessage(n) && '\r' !in QswitchCommand(n)
  {
    Pad3Value(n);
    var text := "QS " + Pad3(n) + "\r";
    TaggedReads("QS ", Pad3(n));
    assert text[..3] == "QS " != "PD ";
    OtherTag(text, "PD ");
    assert text[0] == 'Q';
    hide Tagged, Pad3;
  }

  function FireMessage(on: bool): string {
    if on then "ST 1\r" else "ST 0\r"
  }

  /** "ST n" may always be sent, and turns firing on exactly for n == 1. */
  lemma FireText(d: seq<Item>, s: Shadow, on: bool)
    ensures Allowed(d, Msg(FireMessage(on)))
    ensures Apply(s, Msg(FireMessage(on))) == s.(firing := on)
    ensures (if on then "ST 1" else "ST 0") + "\r" == FireMessage(on)
  {
    var digits := if on then "1" else "0";
    var text := FireMessage(on);
    assert text == "ST " + digits + "\r";
    assert digits[..0] == [];
    assert Value(digits) == if on then 1 else 0;
    TaggedReads("ST ", digits);
    assert text[..3] == "ST ";
    OtherTag(text, "PD ");
    OtherTag(text, "QS ");
    hide Tagged;
  }

  /** Messages with none of the three tags leave the settings alone. */
  predicate Untagged(text: string) {
    |text| >= 3 && text[..3] != "PD " && text[..3] != "QS " && text[..3] != "ST "
  }

  lemma UntaggedText(d: seq<Item>, text: string)
    requires Untagged(text)
    ensures text != "SS\r" ==> Allowed(d, Msg(text))
    ensures |d| > 0 && d[|d| - 1] == Msg("PD 000\r") ==> Allowed(d, Msg(text))
    ensures forall s :: Apply(s, Msg(text)) == s
  {
    OtherTag(text, "PD ");
    OtherTag(text, "QS ");
    OtherTag(text, "ST ");
    hide Tagged;
  }

  lemma SingleShotText()
    ensures "SS" + "\r" == "SS\r" && Untagged("SS\r") && PrescaleMessage(0) == "PD 000\r"
  {
    assert Dec(0) == "0";
    assert "SS\r"[..3] == "SS\r";
  }

  function ShutterMessage(open: bool): string {
    if open then "SH 1\r" else "SH 0\r"
  }

  lemma ShutterText(open: bool)
    ensures (if open then "SH 1" else "SH 0") + "\r" == ShutterMessage(open)
    ensures Untagged(ShutterMessage(open)) && ShutterMessage(open) != "SS\r"
  {
    assert ShutterMessage(open)[..3] == "SH ";
  }

  // -------------------------------------------------------------------------
  // Queries
  // -------------------------------------------------------------------------

  /** What the reads of a query add to the conversation. */
  function Brought(t: seq<Event>): seq<Item> {
    if GotLines(t) then [Line(Got(t))] else []
  }

  // -------------------------------------------------------------------------
  // The driver
  // -------------------------------------------------------------------------

  /** Text that can be sent in one frame. */
  type FrameText = s: string | '\r' !in s

  class Laser {
    const dev: Device
    var isFiring: bool
    var prescale: nat
    var qswitch: nat

    ghost function Wire(): seq<Item>
      reads dev.serial
    {
      Digest(dev.serial.log)
    }

    ghost predicate Ready()
      reads dev.serial, dev.serial.impl, dev.serial.impl.os
    {
      dev.Valid() && dev.pre == "" && dev.sfx == "\r" && Framed(dev.serial.log, '\r')
    }

    /** In every state the frames the laser got are the messages of the conversation
        exactly when no write so far was cut in the middle. */
    lemma FramesIff()
      requires Valid()
      ensures Tokens(dev.serial.impl.os.accepted, "\r") == Bodies(Wire()) + [""] <==> NoPieces(dev.serial.log)
    {
      FramesAreMessagesIff(dev.serial.log, '\r');
    }

    /** The cache is what the laser's own view of the wire says, and the wire has
        been used with discipline. */
    ghost predicate Valid()
      reads this, dev.serial, dev.serial.impl, dev.serial.impl.os
    {
      Ready() && Settings(Wire()) == Shadow(prescale, qswitch, isFiring) && Disciplined(Wire())
    }

    constructor (dev: Device)
      requires dev.Valid() && dev.pre == "" && dev.sfx == "\r" && dev.serial.log == []
      ensures Valid() && this.dev == dev
    {
      this.dev := dev;
      isFiring, prescale, qswitch := false, 0, 170;
    }

    lemma Parts()
      requires Valid()
      ensures Ready() && Settings(Wire()) == Shadow(prescale, qswitch, isFiring) && Disciplined(Wire())
    {
    }

    lemma Whole()
      requires Ready() && Settings(Wire()) == Shadow(prescale, qswitch, isFiring) && Disciplined(Wire())
      ensures Valid()
    {
    }

    /** The block every setter starts with: write, on a short write reset and
        write again, throw if that is short too.  The message has reached the
        laser whole exactly when the block returns normally. */
    method Submit(cmd: string) returns (r: Result<()>, ghost w: seq<Event>)
      requires Ready() && Disciplined(Wire()) && Allowed(Wire(), Msg(cmd + "\r")) && '\r' !in cmd
      modifies dev.serial`log, dev.serial.impl`fd, dev.serial.impl`isOpen, dev.serial.impl`leaked, dev.serial.impl.os
      ensures Ready() && Disciplined(Wire())
      ensures dev.serial.log == old(dev.serial.log) + w && RetryTrace(w, cmd + "\r", r.Ok?)
      ensures r.Ok? ==> Wire() == old(Wire()) + [Msg(cmd + "\r")]
      ensures r.Ok? ==> Settings(Wire()) == Apply(old(Settings(Wire())), Msg(cmd + "\r"))
      ensures !r.Ok? ==> Wire() == old(Wire())
      ensures old(dev.Refused()) ==>
                r == Throw(IoFault) && dev.serial.impl.isOpen &&
                dev.serial.impl.os.script == old(dev.serial.impl.os.script)[3..]
      ensures Offers(old(dev.serial.log), dev.serial.log, cmd + "\r") || r.Cut? || (r.Throw? && !dev.serial.impl.isOpen)
      ensures old(dev.Willing(|cmd| + 1)) ==> r.Cut? || r.Ok?
      ensures r.Ok? ==> dev.serial.impl.isOpen
      ensures w == [] ==> r.Cut? || (r.Throw? && !dev.serial.impl.isOpen)
    {
      hide Digest, SentBytes, HeardBytes, RetryTrace, Disciplined, Allowed, Settings, Apply, Framed, RefusesMessage;
      hide Offers, Device.Willing, Device.Garbles;
      ghost var before := dev.serial.log;
      var ok;
      assert dev.Message(cmd) == cmd + "\r";
      ok, w := dev.WriteRetrying(cmd, true);
      if w != [] {
        RetryOffers(before, w, cmd + "\r", ok == Ok(true));
      }
      RetryDigest(w, cmd + "\r", ok == Ok(true));
      RetryFramed(w, cmd, '\r', ok == Ok(true));
      FramedAppend(before, w, '\r');
      DigestAppend(before, w);
      assert Digest(before) + [] == Digest(before);
      if !ok.Ok? {
        return ok.PropagateFailure(), w;
      }
      if !ok.value {
        return Throw(IoFault), w;
      }
      DisciplinedSnoc(Digest(before), Msg(cmd + "\r"));
      SettingsSnoc(Digest(before), Msg(cmd + "\r"));
      return Ok(()), w;
    }

    /** Any command that is none of the cached settings: shutter, voltage, rate,
        queries.  The cache stays right whatever happens. */
    method SendOther(cmd: string) returns (r: Result<()>)
      requires Valid() && Untagged(cmd + "\r") && cmd + "\r" != "SS\r" && '\r' !in cmd
      modifies dev.serial`log, dev.serial.impl`fd, dev.serial.impl`isOpen, dev.serial.impl`leaked, dev.serial.impl.os
      ensures Valid()
      ensures Wire() == old(Wire()) + (if r.Ok? then [Msg(cmd + "\r")] else [])
      ensures old(dev.Refused()) ==>
                r == Throw(IoFault) && dev.serial.impl.isOpen &&
                dev.serial.impl.os.script == old(dev.serial.impl.os.script)[3..]
      ensures Offers(old(dev.serial.log), dev.serial.log, cmd + "\r") || r.Cut? || (r.Throw? && !dev.serial.impl.isOpen)
      ensures old(dev.Willing(|cmd| + 1)) ==> r.Cut? || r.Ok?
      ensures r.Ok? ==> dev.serial.impl.isOpen
      ensures old(dev.serial.log) <= dev.serial.log
    {
      var sent, _ := Send(cmd);
      r := sent;
    }

    method Send(cmd: string) returns (r: Result<()>, ghost w: seq<Event>)
      requires Valid() && Untagged(cmd + "\r") && cmd + "\r" != "SS\r" && '\r' !in cmd
      modifies dev.serial`log, dev.serial.impl`fd, dev.serial.impl`isOpen, dev.serial.impl`leaked, dev.serial.impl.os
      ensures Valid()
      ensures dev.serial.log == old(dev.serial.log) + w && RetryTrace(w, cmd + "\r", r.Ok?)
      ensures Wire() == old(Wire()) + (if r.Ok? then [Msg(cmd + "\r")] else [])
      ensures old(dev.Refused()) ==>
                r == Throw(IoFault) && dev.serial.impl.isOpen &&
                dev.serial.impl.os.script == old(dev.serial.impl.os.script)[3..]
      ensures Offers(old(dev.serial.log), dev.serial.log, cmd + "\r") || r.Cut? || (r.Throw? && !dev.serial.impl.isOpen)
      ensures old(dev.Willing(|cmd| + 1)) ==> r.Cut? || r.Ok?
      ensures r.Ok? ==> dev.serial.impl.isOpen
      ensures w == [] ==> r.Cut? || (r.Throw? && !dev.serial.impl.isOpen)
    {
      hide Wire, Ready, Disciplined, Settings, Apply, Allowed, Untagged, Pad3, FireMessage, ShutterMessage;
      hide PrescaleMessage, QswitchMessage, PrescaleCommand, QswitchCommand, RefusesMessage, RetryTrace, Framed;
      UntaggedText(Wire(), cmd + "\r");
      assert Wire() + [] == Wire();
      r, w := Submit(cmd);
    }

    /** "SH n". */
    method Shutter(open: bool) returns (r: Result<()>)
      requires Valid()
      modifies dev.serial`log, dev.serial.impl`fd, dev.serial.impl`isOpen, dev.serial.impl`leaked, dev.serial.impl.os
      ensures Valid()
      ensures Wire() == old(Wire()) + (if r.Ok? then [Msg(ShutterMessage(open))] else [])
      ensures old(dev.Refused()) ==>
                r == Throw(IoFault) && dev.serial.impl.isOpen &&
                dev.serial.impl.os.script == old(dev.serial.impl.os.script)[3..]
      ensures Offers(old(dev.serial.log), dev.serial.log, ShutterMessage(open)) || r.Cut? ||
              (r.Throw? && !dev.serial.impl.isOpen)
      ensures old(dev.Willing(5)) ==> r.Cut? || r.Ok?
      ensures r.Ok? ==> dev.serial.impl.isOpen
      ensures old(dev.serial.log) <= dev.serial.log
    {
      hide Valid, Wire, Ready, Disciplined, Settings, Apply, Allowed, Untagged, Pad3, FireMessage, ShutterMessage;
      hide PrescaleMessage, QswitchMessage;
      ShutterText(open);
      r := SendOther(if open then "SH 1" else "SH 0");
    }

    /** "ST n". */
    method Fire(start: bool) returns (r: Result<()>)
      requires Valid()
      modifies this`isFiring
      modifies dev.serial`log, dev.serial.impl`fd, dev.serial.impl`isOpen, dev.serial.impl`leaked, dev.serial.impl.os
      ensures Valid()
      ensures Wire() == old(Wire()) + (if r.Ok? then [Msg(FireMessage(start))] else [])
      ensures isFiring == if r.Ok? then start else old(isFiring)
      ensures old(dev.Refused()) ==>
                r == Throw(IoFault) && dev.serial.impl.isOpen &&
                dev.serial.impl.os.script == old(dev.serial.impl.os.script)[3..]
      ensures Offers(old(dev.serial.log), dev.serial.log, FireMessage(start)) || r.Cut? ||
              (r.Throw? && !dev.serial.impl.isOpen)
      ensures old(dev.Willing(5)) ==> r.Cut? || r.Ok?
      ensures r.Ok? ==> dev.serial.impl.isOpen
      ensures old(dev.serial.log) <= dev.serial.log
    {
      hide Wire, Ready, Disciplined, Settings, Apply, Allowed, Untagged, Pad3, FireMessage, ShutterMessage;
      hide PrescaleMessage, QswitchMessage, PrescaleCommand, QswitchCommand, RefusesMessage, RetryTrace, Framed;
      FireText(Wire(), Settings(Wire()), start);
      assert Wire() + [] == Wire();
      var _, _ :- Submit(if start then "ST 1" else "ST 0");
      if start {
        isFiring := true;
      } else {
        isFiring := false;
      }
      return Ok(());
    }

    static method AtMost(value: nat, top: nat) returns (v: nat)
      ensures v == Min(value, top)
    {
      v := value;
      if v > top {
        v := top;
      }
    }

    /** "PD nnn", with larger values cut to 99. */
    method SetPrescale(value: nat) returns (r: Result<()>)
      requires Valid()
      modifies this`prescale
      modifies dev.serial`log, dev.serial.impl`fd, dev.serial.impl`isOpen, dev.serial.impl`leaked, dev.serial.impl.os
      ensures Valid()
      ensures r.Ok? ==> prescale == Min(value, 99) && Wire() == old(Wire()) + [Msg(PrescaleMessage(prescale))]
      ensures !r.Ok? ==> prescale == old(prescale) && Wire() == old(Wire())
      ensures old(dev.Refused()) ==>
                r == Throw(IoFault) && dev.serial.impl.isOpen &&
                dev.serial.impl.os.script == old(dev.serial.impl.os.script)[3..]
      ensures Offers(old(dev.serial.log), dev.serial.log, PrescaleMessage(Min(value, 99))) || r.Cut? ||
              (r.Throw? && !dev.serial.impl.isOpen)
      ensures old(dev.Willing(7)) ==> r.Cut? || r.Ok?
      ensures r.Ok? ==> dev.serial.impl.isOpen
    {
      hide *;
      var pre := AtMost(value, 99);
      r := PutPrescale(pre);
    }

    method PutPrescale(n: nat) returns (r: Result<()>)
      requires Valid() && n <= 99
      modifies this`prescale
      modifies dev.serial`log, dev.serial.impl`fd, dev.serial.impl`isOpen, dev.serial.impl`leaked, dev.serial.impl.os
      ensures Valid()
      ensures r.Ok? ==> prescale == n && Wire() == old(Wire()) + [Msg(PrescaleMessage(n))]
      ensures !r.Ok? ==> prescale == old(prescale) && Wire() == old(Wire())
      ensures old(dev.Refused()) ==>
                r == Throw(IoFault) && dev.serial.impl.isOpen &&
                dev.serial.impl.os.script == old(dev.serial.impl.os.script)[3..]
      ensures Offers(old(dev.serial.log), dev.serial.log, PrescaleMessage(n)) || r.Cut? ||
              (r.Throw? && !dev.serial.impl.isOpen)
      ensures old(dev.Willing(7)) ==> r.Cut? || r.Ok?
      ensures r.Ok? ==> dev.serial.impl.isOpen
    {
      hide *;
      Parts();
      PrescaleText(Wire(), Settings(Wire()), n);
      ghost var w;
      r, w := Submit(PrescaleCommand(n));
      if r.Ok? {
        prescale := n;
      }
      Whole();
    }

    /** "QS nnn", with larger values cut to 999. */
    method SetQswitch(value: nat) returns (r: Result<()>)
      requires Valid()
      modifies this`qswitch
      modifies dev.serial`log, dev.serial.impl`fd, dev.serial.impl`isOpen, dev.serial.impl`leaked, dev.serial.impl.os
      ensures Valid()
      ensures r.Ok? ==> qswitch == Min(value, 999) && Wire() == old(Wire()) + [Msg(QswitchMessage(qswitch))]
      ensures !r.Ok? ==> qswitch == old(qswitch) && Wire() == old(Wire())
      ensures old(dev.Refused()) ==>
                r == Throw(IoFault) && dev.serial.impl.isOpen &&
                dev.serial.impl.os.script == old(dev.serial.impl.os.script)[3..]
      ensures Offers(old(dev.serial.log), dev.serial.log, QswitchMessage(Min(value, 999))) || r.Cut? ||
              (r.Throw? && !dev.serial.impl.isOpen)
      ensures old(dev.Willing(7)) ==> r.Cut? || r.Ok?
      ensures r.Ok? ==> dev.serial.impl.isOpen
    {
      hide *;
      var qs := AtMost(value, 999);
      r := PutQswitch(qs);
    }

    method PutQswitch(n: nat) returns (r: Result<()>)
      requires Valid() && n <= 999
      modifies this`qswitch
      modifies dev.serial`log, dev.serial.impl`fd, dev.serial.impl`isOpen, dev.serial.impl`leaked, dev.serial.impl.os
      ensures Valid()
      ensures r.Ok? ==> qswitch == n && Wire() == old(Wire()) + [Msg(QswitchMessage(n))]
      ensures !r.Ok? ==> qswitch == old(qswitch) && Wire() == old(Wire())
      ensures old(dev.Refused()) ==>
                r == Throw(IoFault) && dev.serial.impl.isOpen &&
                dev.serial.impl.os.script == old(dev.serial.impl.os.script)[3..]
      ensures Offers(old(dev.serial.log), dev.serial.log, QswitchMessage(n)) || r.Cut? ||
              (r.Throw? && !dev.serial.impl.isOpen)
      ensures old(dev.Willing(7)) ==> r.Cut? || r.Ok?
      ensures r.Ok? ==> dev.serial.impl.isOpen
    {
      hide *;
      Parts();
      QswitchText(Wire(), Settings(Wire()), n);
      ghost var w;
      r, w := Submit(QswitchCommand(n));
      if r.Ok? {
        qswitch := n;
      }
      Whole();
    }

    /** A single shot is only ever asked for right after a prescale of zero. */
    method SingleShot() returns (r: Result<()>)
      requires Valid()
      modifies this`prescale
      modifies dev.serial`log, dev.serial.impl`fd, dev.serial.impl`isOpen, dev.serial.impl`leaked, dev.serial.impl.os
      ensures Valid()
      ensures r.Ok? ==> prescale == 0 && Wire() == old(Wire()) + [Msg("PD 000\r"), Msg("SS\r")]
      ensures !r.Ok? ==> (prescale == old(prescale) && Wire() == old(Wire())) ||
                         (prescale == 0 && Wire() == old(Wire()) + [Msg("PD 000\r")])
      ensures old(dev.Refused()) ==>
                r == Throw(IoFault) && dev.serial.impl.isOpen &&
                dev.serial.impl.os.script == old(dev.serial.impl.os.script)[3..]
      ensures Offers(old(dev.serial.log), dev.serial.log, "PD 000\r") || r.Cut? || (r.Throw? && !dev.serial.impl.isOpen)
      ensures r.Throw? && Wire() != old(Wire()) && dev.serial.impl.isOpen ==>
                exists log :: old(dev.serial.log) <= log && Offers(log, dev.serial.log, "SS\r")
      ensures old(dev.Willing(7) && dev.Willing(3)) ==> r.Cut? || r.Ok?
      ensures r.Ok? ==> dev.serial.impl.isOpen
    {
      hide Wire, Ready, Disciplined, Settings, Apply, Allowed, Untagged, Pad3, FireMessage, ShutterMessage;
      hide PrescaleMessage, QswitchMessage, PrescaleCommand, QswitchCommand, RefusesMessage, RetryTrace, Framed;
      SingleShotText();
      var _ :- SetPrescale(0);
      UntaggedText(Wire(), "SS\r");
      assert old(Wire()) + [Msg("PD 000\r")] + [Msg("SS\r")] == old(Wire()) + [Msg("PD 000\r"), Msg("SS\r")];
      var _, _ :- Submit("SS");
      return Ok(());
    }

    // -----------------------------------------------------------------------
    // Queries
    // -----------------------------------------------------------------------

    /** Lines read are part of the conversation and change nothing else. */
    method Listen() returns (r: Result<seq<string>>, ghost e: Event)
      requires Valid()
      modifies dev.serial`log, dev.serial.impl.os`script, dev.serial.impl.os`now, dev.serial.impl.os`last
      modifies dev.serial.impl.os`incoming, dev.serial.impl.os`delivered
      ensures Valid()
      ensures dev.serial.log == old(dev.serial.log) + [e] && e.Heard? && (e.ok <==> r.Ok?)
      ensures old(dev.serial.impl.os.incoming) == e.bytes + dev.serial.impl.os.incoming
      ensures r.Ok? ==> r.value == LinesOf(e.bytes)
      ensures r.Ok? ==> (r.value == [] <==> e.bytes == [])
      ensures Wire() == old(Wire()) + (if e.ok && e.bytes != [] then [Line(e.bytes)] else [])
    {
      hide Digest, SentBytes, HeardBytes, Disciplined, Settings, Apply, AllLines, Framed;
      ghost var before := dev.serial.log;
      ghost var got;
      r, got := dev.ReadLines();
      e := dev.serial.log[|before|];
      DigestSnoc(before, e);
      QuietFramed(before, e, '\r');
      LineQuiet(Digest(before), got);
      NoLinesIff(got + dev.serial.impl.os.incoming, |got|, dev.readSfx);
      assert Digest(before) + [] == Digest(before);
    }

    /** The lines the driver makes of the bytes it got. */
    ghost function LinesOf(got: string): seq<string>
      reads dev.serial.impl.os`incoming
    {
      AllLines(got + dev.serial.impl.os.incoming, |got|, dev.readSfx)
    }

    static lemma LineQuiet(d: seq<Item>, bytes: string)
      requires Disciplined(d)
      ensures Disciplined(d + [Line(bytes)]) && Settings(d + [Line(bytes)]) == Settings(d)
    {
      hide Disciplined, Settings;
      DisciplinedSnoc(d, Line(bytes));
      SettingsSnoc(d, Line(bytes));
    }

    /** A reset leaves the conversation alone. */
    method Reconnect() returns (r: Result<()>)
      requires Valid()
      modifies dev.serial`log, dev.serial.impl`fd, dev.serial.impl`isOpen, dev.serial.impl`leaked, dev.serial.impl.os
      ensures Valid() && Wire() == old(Wire())
      ensures dev.serial.log == old(dev.serial.log) + [Reset]
    {
      hide Digest, SentBytes, HeardBytes, Disciplined, Settings, Apply, Framed;
      DigestSnoc(dev.serial.log, Reset);
      QuietFramed(dev.serial.log, Reset, '\r');
      assert Wire() + [] == Wire();
      r := dev.ResetConnection();
    }

    /** Reads lines, once more after a reset exactly if the first read brought none.
        The call succeeds exactly when the last read brought lines. */
    method ListenRetrying() returns (r: Result<seq<string>>, retried: bool, ghost t: seq<Event>)
      requires Valid()
      modifies dev.serial`log, dev.serial.impl`fd, dev.serial.impl`isOpen, dev.serial.impl`leaked, dev.serial.impl.os
      ensures Valid()
      ensures dev.serial.log == old(dev.serial.log) + t && t != [] && ListenTrace(t)
      ensures (retried <==> |t| >= 2) && (r.Ok? <==> GotLines(t))
      ensures r.Ok? ==> r.value == LinesOf(Got(t)) && r.value != []
      ensures Wire() == old(Wire()) + Brought(t)
    {
      hide Wire, Valid, LinesOf;
      retried := false;
      ghost var w := Wire();
      ghost var first;
      r, first := Listen();
      t := [first];
      if !r.Ok? || |r.value| > 0 {
        return;
      }
      retried, t := true, [first, Reset];
      assert Wire() == w;
      var reset := Reconnect();
      if !reset.Ok? {
        return reset.PropagateFailure(), retried, t;
      }
      ghost var second;
      r, second := Listen();
      t := [first, Reset, second];
      if r.Ok? && |r.value| == 0 {
        r := Throw(IoFault);
      }
    }

    /** The security code: the second of the two lines the laser sends, the first
        being the echo.  The lines are read only once the query is out whole.
        Whenever the answer is the echo, the code and nothing else, the code is what
        is returned. */
    method Security() returns (r: Result<string>, ghost w: seq<Event>, ghost t: seq<Event>)
      requires Valid()
      modifies dev.serial`log, dev.serial.impl`fd, dev.serial.impl`isOpen, dev.serial.impl`leaked, dev.serial.impl.os
      ensures Valid()
      ensures dev.serial.log == old(dev.serial.log) + w + t
      ensures RetryTrace(w, "SE\r", t != []) && ListenTrace(t)
      ensures Wire() == old(Wire()) + (if t != [] then [Msg("SE\r")] else []) + Brought(t)
      ensures r.Ok? ==> GotLines(t)
      ensures GotLines(t) ==> r == Code(LinesOf(Got(t)), |t| >= 2)
      ensures GotLines(t) && dev.readSfx == "\r" ==>
                forall code | '\r' !in code && EchoAndCode(Got(t), code) :: r == Ok(code)
      ensures old(dev.Refused()) ==>
                r == Throw(IoFault) && dev.serial.impl.isOpen &&
                dev.serial.impl.os.script == old(dev.serial.impl.os.script)[3..]
      ensures w == [] ==> r.Cut? || (r.Throw? && !dev.serial.impl.isOpen)
    {
      w, t := [], [];
      QueryTexts();
      hide Wire, Valid, Untagged, LinesOf, EchoAndCode, RetryTrace, Code, ListenTrace;
      NothingRead();
      ghost var before := dev.serial.log;
      var sent;
      sent, w := Send("SE");
      if !sent.Ok? {
        return sent.PropagateFailure(), w, t;
      }
      var lines, retried;
      lines, retried, t := ListenRetrying();
      if !lines.Ok? {
        return lines.PropagateFailure(), w, t;
      }
      r := Code(lines.value, retried);
      forall code | '\r' !in code && dev.readSfx == "\r" && EchoAndCode(Got(t), code)
        ensures r == Ok(code)
      {
        EchoSplits(Got(t), code, retried);
      }
    }

    /** The second line without its last character; without a retry there have to be
        exactly two lines. */
    static function Code(lines: seq<string>, retried: bool): Result<string> {
      if !retried && |lines| != 2 then Throw(IoFault)
      else if |lines| < 2 || lines[1] == [] then Throw(OutOfRange)
      else Ok(lines[1][..|lines[1]| - 1])
    }

    static ghost predicate EchoAndCode(got: string, code: string) {
      got == "SE" + "\r" + code + "\r"
    }

    lemma EchoSplits(got: string, code: string, retried: bool)
      requires '\r' !in code && EchoAndCode(got, code) && dev.readSfx == "\r"
      ensures Code(LinesOf(got), retried) == Ok(code)
    {
      assert "SE" + "\r" == "SE\r";
      TwoLines("SE", code, '\r', dev.serial.impl.os.incoming);
      assert (code + "\r")[..|code|] == code;
    }

    static lemma QueryTexts()
      ensures "SE" + "\r" == "SE\r" && Untagged("SE\r") && "SE\r" != "SS\r"
      ensures "SC" + "\r" == "SC\r" && Untagged("SC\r") && "SC\r" != "SS\r"
    {
      assert "SE\r"[..3] == "SE\r" && "SC\r"[..3] == "SC\r";
    }

    static lemma NothingRead()
      ensures ListenTrace([]) && !GotLines([]) && Brought([]) == []
    {
    }

    /** The shot count.  The query is written once and a short write is ignored.  An
        echo and a number, or the number alone, give that number exactly when they
        came with the first read: when the lines only came after the reset the code never looks at them,
        and no count is returned. */
    method GetShotCount() returns (r: Result<nat>, ghost w: seq<Event>, ghost t: seq<Event>, ghost whole: bool)
      requires Valid()
      modifies dev.serial`log, dev.serial.impl`fd, dev.serial.impl`isOpen, dev.serial.impl`leaked, dev.serial.impl.os
      ensures Valid()
      ensures dev.serial.log == old(dev.serial.log) + w + t
      ensures |w| <= 1 && RetryTrace(w, "SC\r", whole) && ListenTrace(t) && (t != [] ==> |w| == 1)
      ensures Wire() == old(Wire()) + (if whole then [Msg("SC\r")] else []) + Brought(t)
      ensures r.Ok? ==> GotLines(t) && |t| == 1
      ensures GotLines(t) ==> r == Count(LinesOf(Got(t)), |t| >= 2)
      ensures GotLines(t) && dev.readSfx == "\r" ==>
                forall digits | CountText(digits) && (EchoAndCount(Got(t), digits) || CountOnly(Got(t), digits)) ::
                  r == Ok(Value(digits)) <==> |t| == 1
      ensures w == [] ==> r.Cut? || (r.Throw? && !dev.serial.impl.isOpen)
      ensures old(dev.Refused()) ==>
                r == Throw(IoFault) && dev.serial.impl.isOpen &&
                dev.serial.impl.os.script == old(dev.serial.impl.os.script)[3..]
    {
      w, t := [], [];
      hide Wire, Valid, LinesOf, Count, CountText, EchoAndCount, CountOnly, Value, RetryTrace, ListenTrace;
      NothingRead();
      var sent;
      sent, w := WriteOnce("SC");
      whole := sent == Ok(true);
      if !sent.Ok? {
        return sent.PropagateFailure(), w, t, whole;
      }
      var lines, retried;
      lines, retried, t := ListenRetrying();
      GotLinesLength(t);
      if !lines.Ok? {
        return lines.PropagateFailure(), w, t, whole;
      }
      r := Count(lines.value, retried);
      forall digits | CountText(digits) && dev.readSfx == "\r" &&
                      (EchoAndCount(Got(t), digits) || CountOnly(Got(t), digits))
        ensures r == Ok(Value(digits)) <==> |t| == 1
      {
        CountSplits(Got(t), digits);
      }
    }

    static lemma GotLinesLength(t: seq<Event>)
      requires ListenTrace(t)
      ensures GotLines(t) ==> (|t| == 1 <==> !(|t| >= 2))
    {
    }

    /** The number on the second line, or on the only one; lines that came after a
        reset are not looked at. */
    static function Count(lines: seq<string>, retried: bool): (r: Result<nat>)
      requires lines != []
      ensures r.Ok? ==> !retried && r.value < UINT32_LIMIT
    {
      NoNumber();
      var line := if retried then "" else if |lines| == 1 then lines[0] else lines[1];
      var count :- StoUL(if line == [] then line else line[..|line| - 1]);
      Ok(count % UINT32_LIMIT)
    }

    static ghost predicate CountText(digits: string) {
      digits != [] && AllDigits(digits) && Value(digits) < UINT32_LIMIT
    }

    static ghost predicate EchoAndCount(got: string, digits: string) {
      got == "SC" + "\r" + digits + "\r"
    }

    /** A laser that does not echo. */
    static ghost predicate CountOnly(got: string, digits: string) {
      got == digits + "\r"
    }

    lemma CountSplits(got: string, digits: string)
      requires CountText(digits) && (EchoAndCount(got, digits) || CountOnly(got, digits)) && dev.readSfx == "\r"
      ensures LinesOf(got) != [] && Count(LinesOf(got), false) == Ok(Value(digits))
    {
      hide AllLines, Value;
      assert "SC" + "\r" == "SC\r";
      if EchoAndCount(got, digits) {
        TwoLines("SC", digits, '\r', dev.serial.impl.os.incoming);
      } else {
        OneLine(digits, '\r', dev.serial.impl.os.incoming);
      }
      ReadDigits(digits, false);
      assert (digits + "\r")[..|digits|] == digits;
    }

    static lemma NoNumber()
      ensures !StoUL("").Ok?
    {
    }

    /** One write attempt of a query whose success nobody checks. */
    method WriteOnce(cmd: string) returns (r: Result<bool>, ghost w: seq<Event>)
      requires Valid() && cmd == "SC"
      modifies dev.serial`log, dev.serial.impl`fd, dev.serial.impl`isOpen, dev.serial.impl`leaked, dev.serial.impl.os
      ensures Valid()
      ensures dev.serial.log == old(dev.serial.log) + w && |w| <= 1 && RetryTrace(w, "SC\r", r == Ok(true))
      ensures r.Ok? ==> |w| == 1
      ensures Wire() == old(Wire()) + (if r == Ok(true) then [Msg("SC\r")] else [])
      ensures old(dev.Refused()) ==>
                r == Throw(IoFault) && dev.serial.impl.isOpen &&
                dev.serial.impl.os.script == old(dev.serial.impl.os.script)[3..]
      ensures w == [] ==> r.Cut? || (r.Throw? && !dev.serial.impl.isOpen)
    {
      hide Digest, SentBytes, HeardBytes, Disciplined, Settings, Apply, Allowed, Framed, RefusesMessage;
      QueryTexts();
      ghost var before := dev.serial.log;
      r, w := dev.WriteCmd(cmd);
      assert dev.Message(cmd) == "SC\r";
      RetryDigest(w, "SC\r", r == Ok(true));
      RetryFramed(w, "SC", '\r', r == Ok(true));
      FramedAppend(before, w, '\r');
      DigestAppend(before, w);
      assert Digest(before) + [] == Digest(before);
      UntaggedText(Digest(before), "SC\r");
      DisciplinedSnoc(Digest(before), Msg("SC\r"));
      SettingsSnoc(Digest(before), Msg("SC\r"));
    }

    // -----------------------------------------------------------------------
    // Runs
    // -----------------------------------------------------------------------

    /** One call from outside.  The conversation grows by what the operation tells
        the laser, or by a part of it if the call fails, and by the lines a query
        brings. */
    method Perform(op: LaserOp) returns (r: Result<()>, ghost d: Deed)
      requires Valid()
      modifies this`isFiring, this`prescale, this`qswitch
      modifies dev.serial`log, dev.serial.impl`fd, dev.serial.impl`isOpen, dev.serial.impl`leaked, dev.serial.impl.os
      ensures Valid()
      ensures d.op == op && (d.ok <==> r.Ok?) && Lawful(d)
      ensures Wire() == old(Wire()) + d.items
      ensures isFiring == if op.DoFire? && r.Ok? then op.start else old(isFiring)
      ensures qswitch == if op.DoQswitch? && r.Ok? then Min(op.n, 999) else old(qswitch)
      ensures prescale == if op.DoPrescale? && r.Ok? then Min(op.n, 99)
                          else if op.DoSingleShot? && d.items != [] then 0 else old(prescale)
      ensures Offers(old(dev.serial.log), dev.serial.log, op.First()) || r.Cut? || (r.Throw? && !dev.serial.impl.isOpen)
      ensures old(dev.Refused()) ==>
                r == Throw(IoFault) && dev.serial.impl.isOpen &&
                dev.serial.impl.os.script == old(dev.serial.impl.os.script)[3..]
    {
      hide Valid, Wire, EchoAndCode, EchoAndCount, CountText, Untagged, Pad3, FireMessage, ShutterMessage;
      hide PrescaleMessage;
      hide QswitchMessage, LinesOf, Code, Count, RetryTrace, ListenTrace, RefusesMessage, Brought, Offers;
      hide Device.Willing;
      ghost var w := Wire();
      match op {
        case DoSingleShot => r := SingleShot();
        case DoFire(start) => r := Fire(start);
        case DoShutter(open) => r := Shutter(open);
        case DoPrescale(n) => r := SetPrescale(n);
        case DoQswitch(n) => r := SetQswitch(n);
        case DoVoltage(text) =>
          VoltageText(text);
          r := SendOther("VA " + text);
        case DoSecurity =>
          var code, u, t := Security();
          r := if code.Ok? then Ok(()) else code.PropagateFailure();
          if u != [] {
            WriteOffers(old(dev.serial.log), u, t, "SE\r", t != []);
          }
          AnswerShape(t);
        case DoShotCount =>
          var count, u, t, whole := GetShotCount();
          r := if count.Ok? then Ok(()) else count.PropagateFailure();
          if u != [] {
            WriteOffers(old(dev.serial.log), u, t, "SC\r", whole);
          }
          AnswerShape(t);
      }
      assert w + [] == w && w + [] + [] == w;
      d := Deed(op, r.Ok?, Wire()[|w|..]);
    }

    static lemma WriteOffers(before: seq<Event>, w: seq<Event>, t: seq<Event>, msg: string, done: bool)
      requires RetryTrace(w, msg, done) && w != []
      ensures Offers(before, before + w + t, msg)
    {
      RetryOffers(before, w, msg, done);
      OffersStill(before, before + w, before + w + t, msg);
    }

    static lemma AnswerShape(t: seq<Event>)
      ensures Brought(t) == [] || (|Brought(t)| == 1 && Brought(t)[0].Line?)
      ensures GotLines(t) ==> Brought(t) != []
    {
    }

    static lemma VoltageText(text: string)
      ensures Untagged("VA " + text + "\r") && "VA " + text + "\r" != "SS\r"
    {
      assert ("VA " + text + "\r")[..3] == "VA ";
    }

    /** In every reachable state, also after failed retries and exceptions, the
        cached prescale, Q-switch delay and firing flag are those of the last
        whole messages the laser got, no prescale above 99 was sent, and every
        single shot directly followed a prescale of zero. */
    method Run(ops: seq<LaserOp>)
      requires Valid()
      modifies this`isFiring, this`prescale, this`qswitch
      modifies dev.serial`log, dev.serial.impl`fd, dev.serial.impl`isOpen, dev.serial.impl`leaked, dev.serial.impl.os
      ensures Settings(Wire()) == Shadow(prescale, qswitch, isFiring) && Disciplined(Wire())
      ensures Valid()
    {
      for i := 0 to |ops|
        invariant Valid()
      {
        hide Valid;
        var _, _ := Perform(ops[i]);
      }
    }
  }

  datatype LaserOp =
    | DoSingleShot
    | DoFire(start: bool)
    | DoShutter(open: bool)
    | DoPrescale(n: nat)
    | DoQswitch(n: nat)
    | DoVoltage(text: FrameText)
    | DoSecurity
    | DoShotCount
  {
    /** The message that is offered to the kernel first. */
    function First(): string {
      match this
      case DoSingleShot => "PD 000\r"
      case DoFire(start) => FireMessage(start)
      case DoShutter(open) => ShutterMessage(open)
      case DoPrescale(n) => PrescaleMessage(Min(n, 99))
      case DoQswitch(n) => QswitchMessage(Min(n, 999))
      case DoVoltage(text) => "VA " + text + "\r"
      case DoSecurity => "SE\r"
      case DoShotCount => "SC\r"
    }

    /** What the laser is told when a setting operation succeeds. */
    function Told(): seq<Item> {
      match this
      case DoSingleShot => [Msg("PD 000\r"), Msg("SS\r")]
      case DoFire(start) => [Msg(FireMessage(start))]
      case DoShutter(open) => [Msg(ShutterMessage(open))]
      case DoPrescale(n) => [Msg(PrescaleMessage(Min(n, 99)))]
      case DoQswitch(n) => [Msg(QswitchMessage(Min(n, 999)))]
      case DoVoltage(text) => [Msg("VA " + text + "\r")]
      case _ => []
    }
  }

  /** An operation asked of the laser, how it ended, and what it left in the
      conversation. */
  datatype Deed = Deed(op: LaserOp, ok: bool, items: seq<Item>)

  /** A setting operation has told the laser everything exactly if it succeeded, and
      the beginning otherwise; a query leaves its text, if that went out whole, and a
      line, which a successful one has. */
  predicate Lawful(d: Deed) {
    match d.op
    case DoSecurity => QueryLeft(d.items, "SE\r") && (d.ok ==> |d.items| == 2)
    case DoShotCount => QueryLeft(d.items, "SC\r") && (d.ok ==> d.items != [] && d.items[|d.items| - 1].Line?)
    case _ => d.items <= d.op.Told() && (d.ok <==> d.items == d.op.Told())
  }

  predicate QueryLeft(items: seq<Item>, text: string) {
    || items == [] || items == [Msg(text)]
    || (|items| == 1 && items[0].Line?)
    || (|items| == 2 && items[0] == Msg(text) && items[1].Line?)
  }
}
