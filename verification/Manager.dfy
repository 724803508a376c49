/** The manager program: it maps the devices, runs the user's commands, and on
    every way out takes the laser down first. */
module Manager {
  import opened Outcome
  import opened Kernel
  import opened UnixPort
  import opened SerialPort
  import opened DeviceLine
  import opened Transcript
  import opened LaserDriver
  import opened CommandLine
  import opened Frames
  import opened Decimal

  /** A device pointer: none yet, an instance, or an instance that was deleted. */
  datatype Slot = Null | Live | Freed

  /** How a call on the attenuator or the power meter ends. */
  datatype Fate = Returns | Throws

  /** What the host offers and how argument texts convert. */
  datatype Host = Host(laserFound: bool, attenuatorFound: bool, meterFound: bool,
                       number: string -> int, volts: string -> Option<FrameText>)

  /** What mapping one device came to: the status, whether there is an instance
      now, and whether the device was there before or could be created and answered
      its first queries. */
  datatype Mapping = Mapping(status: Result<int>, live: bool, answered: bool)

  predicate Possible(m: Mapping) {
    && (m.status == Ok(0) || m.status == Ok(1) || m.status == Cut)
    && (m.status == Ok(0) <==> m.answered) && (m.answered ==> m.live)
  }

  /** Mapping goes on as long as there are instances. */
  predicate MappingRun(ms: seq<Mapping>) {
    && (forall i :: 0 <= i < |ms| ==> Possible(ms[i]))
    && (forall i :: 0 <= i < |ms| - 1 ==> !Stops(ms[i]))
  }

  predicate GoesOn(ms: seq<Mapping>) {
    MappingRun(ms) && (ms != [] ==> !Stops(ms[|ms| - 1]))
  }

  lemma NextMapping(ms: seq<Mapping>, m: Mapping)
    requires GoesOn(ms) && Possible(m)
    ensures MappingRun(ms + [m]) && Total(ms + [m]) == Status(m)
    ensures GoesOn(ms + [m]) <==> !Stops(m)
  {
    hide Stops, Possible, Status;
    var all := ms + [m];
    assert forall i :: 0 <= i < |ms| ==> all[i] == ms[i];
    assert all[|ms|] == m;
  }

  /** Mapping a device whose creation and first queries end as `fates` says. */
  function Mapped(slot: Slot, found: bool, fates: seq<Fate>): (m: Mapping)
    ensures Possible(m) && (m.status == Ok(0) ==> m.live)
  {
    if slot != Null then Mapping(Ok(0), true, true)
    else if !found then Mapping(Ok(1), false, false)
    else if fates == [] then Mapping(Cut, false, false)
    else if fates[0] == Throws then Mapping(Ok(1), false, false)
    else if |fates| == 1 then Mapping(Cut, true, false)
    else if fates[1] == Throws then Mapping(Ok(1), true, false)
    else Mapping(Ok(0), true, true)
  }

  /** The outcomes left for the devices after it. */
  function Left(slot: Slot, found: bool, fates: seq<Fate>): seq<Fate> {
    if slot != Null || !found || fates == [] then fates
    else if fates[0] == Throws || |fates| == 1 then fates[1..]
    else fates[2..]
  }

  /** A device without an instance, or the end of the run, stops the mapping. */
  predicate Stops(m: Mapping) {
    m.status.Cut? || !m.live
  }

  function Status(m: Mapping): Result<int> {
    if !m.status.Cut? && !m.live then Ok(1) else m.status
  }

  /** The status of the whole: that of the last device only. */
  function Total(ms: seq<Mapping>): Result<int> {
    if ms == [] then Ok(0) else Status(ms[|ms| - 1])
  }

  predicate AllAnswered(ms: seq<Mapping>) {
    forall i :: 0 <= i < |ms| ==> ms[i].answered
  }

  /** Status 0 says that all first queries were answered if and only if at most one
      device is mapped. */
  lemma StatusMeansAnsweredIff(n: nat)
    ensures (forall ms: seq<Mapping> | |ms| == n && MappingRun(ms) && Total(ms) == Ok(0) :: AllAnswered(ms)) <==> n <= 1
  {
    var bad, good := Mapping(Ok(1), true, false), Mapping(Ok(0), true, true);
    if n > 1 {
      var ms := seq(n, i => if i == 0 then bad else good);
      assert |ms| == n && MappingRun(ms) && Total(ms) == Ok(0);
      assert !ms[0].answered;
    }
  }

  // -------------------------------------------------------------------------
  // What the laser hears
  // -------------------------------------------------------------------------

  function Items(ds: seq<Deed>): seq<Item> {
    if ds == [] then [] else Items(ds[..|ds| - 1]) + ds[|ds| - 1].items
  }

  function Ops(ds: seq<Deed>): seq<LaserOp> {
    if ds == [] then [] else Ops(ds[..|ds| - 1]) + [ds[|ds| - 1].op]
  }

  predicate AllLawful(ds: seq<Deed>) {
    forall i :: 0 <= i < |ds| ==> Lawful(ds[i])
  }

  lemma NoDeeds()
    ensures Items([]) == [] && Ops([]) == [] && AllLawful([])
  {
  }

  lemma OneDeed(d: Deed)
    requires Lawful(d)
    ensures Items([d]) == d.items && Ops([d]) == [d.op] && AllLawful([d])
  {
    hide Lawful;
    NoDeeds();
    DeedsSnoc([], d);
    assert [] + [d] == [d];
  }

  lemma DeedsSnoc(ds: seq<Deed>, d: Deed)
    ensures Items(ds + [d]) == Items(ds) + d.items && Ops(ds + [d]) == Ops(ds) + [d.op]
    ensures AllLawful(ds) && Lawful(d) ==> AllLawful(ds + [d])
  {
    hide Lawful;
    assert (ds + [d])[..|ds|] == ds;
  }

  lemma {:induction false} DeedsAppend(a: seq<Deed>, b: seq<Deed>)
    ensures Items(a + b) == Items(a) + Items(b) && Ops(a + b) == Ops(a) + Ops(b)
    ensures AllLawful(a) && AllLawful(b) ==> AllLawful(a + b)
  {
    hide Lawful;
    if b == [] {
      NoDeeds();
      assert a + b == a;
    } else {
      var k := |b| - 1;
      DeedsAppend(a, b[..k]);
      assert b == b[..k] + [b[k]] && a + b == a + b[..k] + [b[k]];
      DeedsSnoc(b[..k], b[k]);
      DeedsSnoc(a + b[..k], b[k]);
      Associate(Items(a), Items(b[..k]), b[k].items);
      Associate(Ops(a), Ops(b[..k]), [b[k].op]);
    }
  }

  /** Only the operation that starts the laser sends "ST 1", and only the one that
      opens the shutter sends "SH 1". */
  lemma DangerousDeed(d: Deed)
    requires Lawful(d)
    ensures Msg(FireMessage(true)) in d.items ==> d.op == DoFire(true)
    ensures Msg(ShutterMessage(true)) in d.items ==> d.op == DoShutter(true)
  {
    match d.op {
      case DoPrescale(n) => assert PrescaleMessage(Min(n, 99))[0] == 'P';
      case DoQswitch(n) => assert QswitchMessage(Min(n, 999))[0] == 'Q';
      case DoVoltage(text) => assert ("VA " + text + "\r")[0] == 'V';
      case _ =>
    }
  }

  lemma {:induction false} DangerousDeeds(ds: seq<Deed>)
    requires AllLawful(ds)
    ensures Msg(FireMessage(true)) in Items(ds) ==> DoFire(true) in Ops(ds)
    ensures Msg(ShutterMessage(true)) in Items(ds) ==> DoShutter(true) in Ops(ds)
  {
    hide Lawful, FireMessage, ShutterMessage;
    if ds != [] {
      var k := |ds| - 1;
      DangerousDeeds(ds[..k]);
      DangerousDeed(ds[k]);
    }
  }

  /** How a call on the way down ended. */
  datatype Call = NotCalled | Returned | Failed

  /** The way down: was there a laser, did the deletions in front of it return, and
      how did "stop firing" and "close the shutter" end. */
  datatype Ending = Ending(live: bool, deleted: bool, stop: Call, close: Call)

  /** "Stop firing" is tried exactly when there is a laser and the other devices
      are deleted, "close the shutter" exactly when that was taken whole. */
  predicate Orderly(e: Ending) {
    && (e.stop != NotCalled <==> e.live && e.deleted)
    && (e.close != NotCalled <==> e.stop == Returned)
  }

  /** What the laser hears on the way down. */
  function Said(e: Ending): seq<Item> {
    (if e.stop == Returned then [Msg(FireMessage(false))] else [])
    + (if e.close == Returned then [Msg(ShutterMessage(false))] else [])
  }

  /** Exactly when the laser hears both messages, only the first, or nothing. */
  lemma SaidIff(e: Ending)
    requires Orderly(e)
    ensures Said(e) == [Msg(FireMessage(false)), Msg(ShutterMessage(false))] <==>
            e.live && e.deleted && e.stop == Returned && e.close == Returned
    ensures Said(e) == [Msg(FireMessage(false))] <==> e.live && e.deleted && e.stop == Returned && e.close == Failed
    ensures Said(e) == [] <==> !e.live || !e.deleted || e.stop == Failed
  {
  }

  /** A whole run: what mapping came to, what was asked of the laser first, what the
      commands asked of it and how they ended, and, if the run got there, the way down
      and where in the laser's log it starts. */
  datatype History = History(mapping: seq<Mapping>, greeting: seq<Deed>, deeds: seq<Deed>, codes: seq<int>,
                               ended: bool, mark: nat, ending: Ending)

  class Session {
    /** The first words of commands that go to a device. */
    static const DEVICES: set<string> := {"laser", "attenuator", "power_meter"}
    const host: Host
    const laser: Laser
    var laserSlot: Slot
    var attenuatorSlot: Slot
    var meterSlot: Slot
    var ignoreLaser: bool
    var ignoreAttenuator: bool
    var ignoreMeter: bool
    var fates: seq<Fate>
    ghost var ran: seq<seq<string>>   // the commands run so far, as words

    ghost predicate Valid()
      reads laser, laser.dev.serial, laser.dev.serial.impl, laser.dev.serial.impl.os
    {
      laser.Valid()
    }

    constructor (host: Host, laser: Laser, ignoreLaser: bool, ignoreAttenuator: bool, ignoreMeter: bool,
                 fates: seq<Fate>)
      requires laser.Valid()
      ensures Valid() && this.laser == laser && this.host == host && this.fates == fates
      ensures this.ignoreLaser == ignoreLaser && this.ignoreAttenuator == ignoreAttenuator &&
              this.ignoreMeter == ignoreMeter
      ensures laserSlot == Null && attenuatorSlot == Null && meterSlot == Null && ran == []
    {
      this.host, this.laser, this.fates := host, laser, fates;
      this.ignoreLaser, this.ignoreAttenuator, this.ignoreMeter := ignoreLaser, ignoreAttenuator, ignoreMeter;
      laserSlot, attenuatorSlot, meterSlot := Null, Null, Null;
      ran := [];
    }

    // -----------------------------------------------------------------------
    // Using an instance: only while there is one
    // -----------------------------------------------------------------------

    method NextFate() returns (r: Result<()>)
      modifies this`fates
      ensures r == if old(fates) == [] then Cut else if old(fates)[0] == Returns then Ok(()) else Throw(IoFault)
      ensures fates == if old(fates) == [] then [] else old(fates)[1..]
    {
      if fates == [] {
        return Cut;
      }
      var fate := fates[0];
      fates := fates[1..];
      return if fate == Returns then Ok(()) else Throw(IoFault);
    }

    method UseAttenuator() returns (r: Result<()>)
      requires attenuatorSlot == Live
      modifies this`fates
      ensures r == if old(fates) == [] then Cut else if old(fates)[0] == Returns then Ok(()) else Throw(IoFault)
      ensures fates == if old(fates) == [] then [] else old(fates)[1..]
    {
      r := NextFate();
    }

    method UseMeter() returns (r: Result<()>)
      requires meterSlot == Live
      modifies this`fates
      ensures r == if old(fates) == [] then Cut else if old(fates)[0] == Returns then Ok(()) else Throw(IoFault)
      ensures fates == if old(fates) == [] then [] else old(fates)[1..]
    {
      r := NextFate();
    }

    method UseLaser(op: LaserOp) returns (r: Result<()>, ghost d: Deed)
      requires Valid() && laserSlot == Live
      modifies laser`isFiring, laser`prescale, laser`qswitch
      modifies laser.dev.serial`log, laser.dev.serial.impl`fd, laser.dev.serial.impl`isOpen
      modifies laser.dev.serial.impl`leaked, laser.dev.serial.impl.os
      ensures Valid()
      ensures d.op == op && (d.ok <==> r.Ok?) && Lawful(d)
      ensures laser.Wire() == old(laser.Wire()) + d.items
      ensures laser.isFiring == if op.DoFire? && r.Ok? then op.start else old(laser.isFiring)
      ensures laser.qswitch == if op.DoQswitch? && r.Ok? then Min(op.n, 999) else old(laser.qswitch)
      ensures laser.prescale == if op.DoPrescale? && r.Ok? then Min(op.n, 99)
                                else if op.DoSingleShot? && d.items != [] then 0 else old(laser.prescale)
      ensures Offers(old(laser.dev.serial.log), laser.dev.serial.log, op.First()) || r.Cut? ||
              (r.Throw? && !laser.dev.serial.impl.isOpen)
      ensures old(laser.dev.Refused()) ==> r == Throw(IoFault) && laser.dev.serial.impl.isOpen
      ensures old(laser.dev.Refused()) ==> laser.dev.serial.impl.os.script == old(laser.dev.serial.impl.os.script)[3..]
    {
      r, d := laser.Perform(op);
    }

    // -----------------------------------------------------------------------
    // Mapping
    // -----------------------------------------------------------------------

    /** A `try` block that turns every exception into status 1. */
    static function Caught(r: Result<()>): (c: Result<int>)
      ensures c.Ok? <==> !r.Cut?
      ensures c == Ok(0) <==> r.Ok?
    {
      if r.Ok? then Ok(0) else if r.Throw? then Ok(1) else Cut
    }

    /** Status 0 exactly when there was an instance or the device could be created
        and answered; an instance whose queries fail stays. */
    method MapAttenuator() returns (r: Result<int>)
      modifies this`attenuatorSlot, this`fates
      ensures old(attenuatorSlot) != Null ==> attenuatorSlot == old(attenuatorSlot)
      ensures attenuatorSlot == Freed ==> old(attenuatorSlot) == Freed
      ensures r == Ok(0) ==> attenuatorSlot != Null
      ensures ignoreAttenuator ==> r == Ok(1) && attenuatorSlot == old(attenuatorSlot) && fates == old(fates)
      ensures !ignoreAttenuator ==> r == Mapped(old(attenuatorSlot), host.attenuatorFound, old(fates)).status
      ensures !ignoreAttenuator ==>
                (attenuatorSlot != Null <==> Mapped(old(attenuatorSlot), host.attenuatorFound, old(fates)).live)
      ensures !ignoreAttenuator ==> fates == Left(old(attenuatorSlot), host.attenuatorFound, old(fates))
    {
      if ignoreAttenuator {
        return Ok(1);
      }
      if attenuatorSlot != Null {
        return Ok(0);
      }
      if !host.attenuatorFound {
        return Ok(1);
      }
      var created := NextFate();
      if !created.Ok? {
        return Caught(created);
      }
      attenuatorSlot := Live;
      var queried := UseAttenuator();
      return Caught(queried);
    }

    method MapMeter() returns (r: Result<int>)
      modifies this`meterSlot, this`fates
      ensures old(meterSlot) != Null ==> meterSlot == old(meterSlot)
      ensures meterSlot == Freed ==> old(meterSlot) == Freed
      ensures r == Ok(0) ==> meterSlot != Null
      ensures ignoreMeter ==> r == Ok(1) && meterSlot == old(meterSlot) && fates == old(fates)
      ensures !ignoreMeter ==> r == Mapped(old(meterSlot), host.meterFound, old(fates)).status
      ensures !ignoreMeter ==> (meterSlot != Null <==> Mapped(old(meterSlot), host.meterFound, old(fates)).live)
      ensures !ignoreMeter ==> fates == Left(old(meterSlot), host.meterFound, old(fates))
    {
      if ignoreMeter {
        return Ok(1);
      }
      if meterSlot != Null {
        return Ok(0);
      }
      if !host.meterFound {
        return Ok(1);
      }
      var created := NextFate();
      if !created.Ok? {
        return Caught(created);
      }
      meterSlot := Live;
      var queried := UseMeter();
      return Caught(queried);
    }

    /** The laser has been asked for its state, and both queries were answered. */
    static predicate Greeted(ds: seq<Deed>) {
      |ds| == 2 && ds[1].ok
    }

    /** What mapping asks of the laser: its security code and, if that was answered,
        its shot count. */
    static ghost predicate Greeting(ds: seq<Deed>) {
      && AllLawful(ds) && Ops(ds) <= [DoSecurity, DoShotCount]
      && (ds != [] ==> (|ds| == 2 <==> ds[0].ok))
    }

    /** Status 0 exactly when there was an instance or the port opened and both
        first queries were answered; the instance stays when they are not. */
    method MapLaser() returns (r: Result<int>, ghost ds: seq<Deed>)
      requires Valid()
      modifies this`laserSlot, laser`isFiring, laser`prescale, laser`qswitch
      modifies laser.dev.serial`log, laser.dev.serial.impl`fd, laser.dev.serial.impl`isOpen
      modifies laser.dev.serial.impl`leaked, laser.dev.serial.impl.os
      ensures Valid()
      ensures old(laserSlot) != Null ==> laserSlot == old(laserSlot)
      ensures laserSlot == Freed ==> old(laserSlot) == Freed
      ensures ds != [] <==> old(laserSlot) == Null && laserSlot == Live
      ensures !host.laserFound ==> laserSlot == old(laserSlot)
      ensures Greeting(ds) && laser.Wire() == old(laser.Wire()) + Items(ds)
      ensures r == Ok(0) || r == Ok(1) || r == Cut
      ensures r == Ok(0) <==> old(laserSlot) != Null || Greeted(ds)
      ensures old(laserSlot) == Null && host.laserFound && old(OpensThenRefuses()) ==>
                r == Ok(1) && laserSlot == Live && Refusing(old(laser.dev.serial.impl.os.script))
    {
      NoGreeting();
      assert laser.Wire() + [] == laser.Wire();
      ds := [];
      if laserSlot != Null {
        return Ok(0), ds;
      }
      if !host.laserFound {
        return Ok(1), ds;
      }
      hide Valid, Greeting, Items, RefusesMessage, Opens;
      var port := OpenLaser();
      if !port.Ok? {
        return Caught(port), ds;
      }
      laserSlot := Live;
      var greeted;
      greeted, ds := Greet();
      return Caught(greeted), ds;
    }

    /** The first two queries. */
    method Greet() returns (r: Result<()>, ghost ds: seq<Deed>)
      requires Valid() && laserSlot == Live
      modifies laser`isFiring, laser`prescale, laser`qswitch
      modifies laser.dev.serial`log, laser.dev.serial.impl`fd, laser.dev.serial.impl`isOpen
      modifies laser.dev.serial.impl`leaked, laser.dev.serial.impl.os
      ensures Valid()
      ensures ds != [] && Greeting(ds) && laser.Wire() == old(laser.Wire()) + Items(ds)
      ensures r.Ok? <==> Greeted(ds)
      ensures old(laser.dev.Refused()) ==> r == Throw(IoFault) && laser.dev.serial.impl.isOpen
      ensures old(laser.dev.Refused()) ==> laser.dev.serial.impl.os.script == old(laser.dev.serial.impl.os.script)[3..]
    {
      hide Valid, Lawful, Items, Ops, AllLawful, RefusesMessage;
      ghost var d0, d1;
      ghost var w := laser.Wire();
      r, d0 := UseLaser(DoSecurity);
      OneDeed(d0);
      ds := [d0];
      if !r.Ok? {
        return;
      }
      r, d1 := UseLaser(DoShotCount);
      DeedsSnoc([d0], d1);
      assert [d0] + [d1] == [d0, d1];
      Associate(w, d0.items, d1.items);
      ds := [d0, d1];
    }

    /** The port opens, and then the kernel refuses the first message. */
    predicate OpensThenRefuses()
      reads laser.dev.serial.impl, laser.dev.serial.impl.os
    {
      && laser.dev.serial.impl.path != "" && !laser.dev.serial.impl.isOpen
      && Opens(laser.dev.serial.impl.os.script, laser.dev.serial.impl.os.live)
      && RefusesMessage(laser.dev.serial.impl.os.script[2..])
    }

    /** Afterwards the port is open and this is what is left of the script. */
    predicate Refusing(was: seq<Answer>)
      reads laser.dev.serial.impl, laser.dev.serial.impl.os
    {
      laser.dev.serial.impl.isOpen && |was| >= 5 && laser.dev.serial.impl.os.script == was[5..]
    }

    /** The constructor's `open`. */
    method OpenLaser() returns (r: Result<()>)
      requires Valid()
      modifies laser.dev.serial.impl`fd, laser.dev.serial.impl`isOpen, laser.dev.serial.impl`leaked
      modifies laser.dev.serial.impl.os
      ensures Valid() && laser.Wire() == old(laser.Wire())
      ensures old(OpensThenRefuses()) ==> r.Ok? && laser.dev.Refused()
      ensures old(OpensThenRefuses()) ==> laser.dev.serial.impl.os.script == old(laser.dev.serial.impl.os.script)[2..]
    {
      hide SentBytes, HeardBytes, Digest, Settings, Disciplined;
      r := laser.dev.serial.impl.Open();
    }

    ghost function Wanted(): nat
      reads this
    {
      (if ignoreAttenuator then 0 else 1) + (if ignoreLaser then 0 else 1) + (if ignoreMeter then 0 else 1)
    }

    /** Every device that is not ignored has an instance. */
    ghost predicate Instances()
      reads this
    {
      && (ignoreLaser || laserSlot == Live)
      && (ignoreAttenuator || attenuatorSlot == Live) && (ignoreMeter || meterSlot == Live)
    }

    /** Maps whatever is not ignored, attenuator, laser, power meter, and stops where
        there is no instance.  Each status overwrites the one before: 0 means that
        every device that is not ignored has an instance and that the last of them
        answered its first queries. */
    method MapDevices() returns (r: Result<int>, ghost ms: seq<Mapping>, ghost ds: seq<Deed>)
      requires Valid() && laserSlot != Freed && attenuatorSlot != Freed && meterSlot != Freed
      modifies this`laserSlot, this`attenuatorSlot, this`meterSlot, this`fates
      modifies laser`isFiring, laser`prescale, laser`qswitch
      modifies laser.dev.serial`log, laser.dev.serial.impl`fd, laser.dev.serial.impl`isOpen
      modifies laser.dev.serial.impl`leaked, laser.dev.serial.impl.os
      ensures Valid() && laserSlot != Freed && attenuatorSlot != Freed && meterSlot != Freed
      ensures ignoreAttenuator ==> attenuatorSlot == old(attenuatorSlot)
      ensures ignoreMeter ==> meterSlot == old(meterSlot)
      ensures |ms| <= Wanted() && MappingRun(ms) && r == Total(ms)
      ensures |ms| < Wanted() ==> ms != [] && Stops(ms[|ms| - 1])
      ensures r == Ok(0) <==> Instances() && |ms| == Wanted() && (ms != [] ==> ms[|ms| - 1].status == Ok(0))
      ensures !ignoreAttenuator ==> ms != [] && ms[0] == Mapped(old(attenuatorSlot), host.attenuatorFound, old(fates))
      ensures !ignoreMeter && |ms| == Wanted() ==>
                ms[|ms| - 1] == Mapped(old(meterSlot), host.meterFound, old(FatesForMeter()))
      ensures Greeting(ds) && laser.Wire() == old(laser.Wire()) + Items(ds)
      ensures Noted(old(laserSlot), laserSlot, LaserAt(), ignoreLaser, ms, ds)
      ensures ignoreAttenuator && !ignoreLaser && ignoreMeter && old(laserSlot) == Null && host.laserFound
              && old(OpensThenRefuses()) ==>
                r == Ok(1) && laserSlot == Live && Refusing(old(laser.dev.serial.impl.os.script))
    {
      hide Valid, Mapped, Left, MappingRun, GoesOn, Total, Possible, Stops, Greeting, OpensThenRefuses, Refusing;
      hide Items, Noted;
      hide FatesForMeter, Laser.Wire, Laser.Valid, Status, Greeted;
      ghost var slot, at := laserSlot, LaserAt();
      var go;
      r, go, ms, ds := FirstStages();
      if !go {
        return;
      }
      ghost var before := ms;
      r, go, ms := MeterStage(r, ms);
      NotedStill(slot, laserSlot, at, ignoreLaser, before, ms[|before|..], ds);
      assert before + ms[|before|..] == ms;
      if go {
        TotalIsLast(ms);
      }
    }

    // The blocks of `map_devices`: `go` says that the next one is reached
    method FirstStages() returns (r: Result<int>, go: bool, ghost ms: seq<Mapping>, ghost ds: seq<Deed>)
      requires Valid() && laserSlot != Freed && attenuatorSlot != Freed
      modifies this`laserSlot, this`attenuatorSlot, this`fates
      modifies laser`isFiring, laser`prescale, laser`qswitch
      modifies laser.dev.serial`log, laser.dev.serial.impl`fd, laser.dev.serial.impl`isOpen
      modifies laser.dev.serial.impl`leaked, laser.dev.serial.impl.os
      ensures Valid() && laserSlot != Freed && attenuatorSlot != Freed
      ensures ignoreAttenuator ==> attenuatorSlot == old(attenuatorSlot)
      ensures MappingRun(ms) && r == Total(ms) && (go <==> GoesOn(ms))
      ensures !go ==> ms != [] && Stops(ms[|ms| - 1]) && ms[|ms| - 1].status != Ok(0) && r != Ok(0)
      ensures |ms| <= Early() && (go ==> |ms| == Early())
      ensures go ==> (ignoreAttenuator || attenuatorSlot == Live) && (ignoreLaser || laserSlot == Live)
      ensures !ignoreAttenuator ==> ms != [] && ms[0] == Mapped(old(attenuatorSlot), host.attenuatorFound, old(fates))
      ensures fates == old(FatesForMeter())
      ensures Greeting(ds) && laser.Wire() == old(laser.Wire()) + Items(ds)
      ensures Noted(old(laserSlot), laserSlot, LaserAt(), ignoreLaser, ms, ds)
      ensures ignoreAttenuator && !ignoreLaser && old(laserSlot) == Null && host.laserFound &&
              old(OpensThenRefuses()) ==>
                r == Ok(1) && go && laserSlot == Live && Refusing(old(laser.dev.serial.impl.os.script))
    {
      hide Valid, Mapped, Left, MappingRun, GoesOn, Total, Possible, Stops, Greeting, OpensThenRefuses, Refusing;
      hide Items, Noted;
      hide FatesForMeter, Laser.Wire, Laser.Valid, Status, Greeted;
      NothingMapped();
      NoGreeting();
      assert laser.Wire() + [] == laser.Wire();
      ds := [];
      r, go, ms := AttenuatorStage();
      if !go {
        NotYetNoted(laserSlot, LaserAt(), ignoreLaser, ms);
        return;
      }
      r, go, ms, ds := LaserStage(r, ms);
    }

    ghost function Early(): nat
      reads this
    {
      (if ignoreAttenuator then 0 else 1) + (if ignoreLaser then 0 else 1)
    }

    /** The laser's place in the order of mapping. */
    ghost function LaserAt(): nat
      reads this
    {
      if ignoreAttenuator then 0 else 1
    }

    /** The laser's entry among the mappings, and what was asked of it: an instance
        was there and is, or was created and asked first; without its turn nothing
        changes. */
    static predicate Noted(was: Slot, now: Slot, at: nat, ignored: bool, ms: seq<Mapping>, ds: seq<Deed>) {
      && (ds != [] <==> was == Null && now == Live)
      && (ignored || |ms| <= at ==> now == was)
      && (!ignored && |ms| > at ==>
            (ms[at].live <==> now == Live) && (ms[at].answered <==> was == Live || Greeted(ds)))
    }

    static lemma NotedStill(was: Slot, now: Slot, at: nat, ignored: bool,
                            ms: seq<Mapping>, more: seq<Mapping>, ds: seq<Deed>)
      requires Noted(was, now, at, ignored, ms, ds) && (ignored || |ms| > at)
      ensures Noted(was, now, at, ignored, ms + more, ds)
    {
    }

    static lemma NotYetNoted(slot: Slot, at: nat, ignored: bool, ms: seq<Mapping>)
      requires |ms| <= at
      ensures Noted(slot, slot, at, ignored, ms, [])
    {
    }

    static lemma NoGreeting()
      ensures Greeting([]) && Items([]) == []
    {
    }

    static lemma TotalIsLast(ms: seq<Mapping>)
      requires GoesOn(ms)
      ensures Total(ms) == if ms == [] then Ok(0) else ms[|ms| - 1].status
    {
    }

    method AttenuatorStage() returns (r: Result<int>, go: bool, ghost ms: seq<Mapping>)
      requires attenuatorSlot != Freed
      modifies this`attenuatorSlot, this`fates
      ensures ms == if ignoreAttenuator then [] else [Mapped(old(attenuatorSlot), host.attenuatorFound, old(fates))]
      ensures MappingRun(ms) && r == Total(ms) && (go <==> GoesOn(ms))
      ensures !go ==> ms != [] && Stops(ms[|ms| - 1]) && ms[|ms| - 1].status != Ok(0) && r != Ok(0)
      ensures attenuatorSlot != Freed && (go ==> ignoreAttenuator || attenuatorSlot == Live)
      ensures ignoreAttenuator ==> attenuatorSlot == old(attenuatorSlot)
      ensures fates == old(FatesForMeter())
    {
      hide Mapped, Left, MappingRun, GoesOn, Total, Possible;
      NothingMapped();
      r, go, ms := Ok(0), true, [];
      if !ignoreAttenuator {
        ghost var m := Mapped(attenuatorSlot, host.attenuatorFound, fates);
        r := MapAttenuator();
        NextMapping([], m);
        ms := [m];
        assert [] + [m] == [m];
        if r.Cut? {
          return r, false, ms;
        }
        if attenuatorSlot == Null {
          return Ok(1), false, ms;
        }
      }
    }

    method LaserStage(r0: Result<int>, ghost before: seq<Mapping>)
      returns (r: Result<int>, go: bool, ghost ms: seq<Mapping>, ghost ds: seq<Deed>)
      requires Valid() && laserSlot != Freed && GoesOn(before) && MappingRun(before) && r0 == Total(before)
      modifies this`laserSlot, laser`isFiring, laser`prescale, laser`qswitch
      modifies laser.dev.serial`log, laser.dev.serial.impl`fd, laser.dev.serial.impl`isOpen
      modifies laser.dev.serial.impl`leaked, laser.dev.serial.impl.os
      ensures Valid() && laserSlot != Freed
      ensures if ignoreLaser then ms == before else |ms| == |before| + 1 && before <= ms
      ensures MappingRun(ms) && r == Total(ms) && (go <==> GoesOn(ms))
      ensures !go ==> ms != [] && Stops(ms[|ms| - 1]) && ms[|ms| - 1].status != Ok(0) && r != Ok(0)
      ensures go ==> ignoreLaser || laserSlot == Live
      ensures Greeting(ds) && laser.Wire() == old(laser.Wire()) + Items(ds)
      ensures Noted(old(laserSlot), laserSlot, |before|, ignoreLaser, ms, ds)
      ensures !ignoreLaser && old(laserSlot) == Null && host.laserFound && old(OpensThenRefuses()) ==>
                r == Ok(1) && go && laserSlot == Live && Refusing(old(laser.dev.serial.impl.os.script))
    {
      hide Valid, MappingRun, GoesOn, Total, Possible, Greeting, OpensThenRefuses, Refusing, Items;
      NoGreeting();
      assert laser.Wire() + [] == laser.Wire();
      r, go, ms, ds := r0, true, before, [];
      if !ignoreLaser {
        r, ds := MapLaser();
        ghost var m := Mapping(r, laserSlot != Null, r == Ok(0));
        LaserMapping(m);
        NextMapping(before, m);
        ms := before + [m];
        if r.Cut? {
          return r, false, ms, ds;
        }
        if laserSlot == Null {
          return Ok(1), false, ms, ds;
        }
      }
    }

    method MeterStage(r0: Result<int>, ghost before: seq<Mapping>)
      returns (r: Result<int>, go: bool, ghost ms: seq<Mapping>)
      requires meterSlot != Freed && GoesOn(before) && MappingRun(before) && r0 == Total(before)
      modifies this`meterSlot, this`fates
      ensures ms == before + if ignoreMeter then [] else [Mapped(old(meterSlot), host.meterFound, old(fates))]
      ensures MappingRun(ms) && r == Total(ms) && (go <==> GoesOn(ms))
      ensures !go ==> ms != [] && ms[|ms| - 1].status != Ok(0) && r != Ok(0)
      ensures meterSlot != Freed && (go ==> ignoreMeter || meterSlot == Live)
      ensures ignoreMeter ==> meterSlot == old(meterSlot) && r == r0 && go
    {
      hide Mapped, Left, MappingRun, GoesOn, Total, Possible;
      r, go, ms := r0, true, before;
      assert before + [] == before;
      if !ignoreMeter {
        ghost var m := Mapped(meterSlot, host.meterFound, fates);
        r := MapMeter();
        NextMapping(before, m);
        ms := before + [m];
        if r.Cut? {
          return r, false, ms;
        }
        if meterSlot == Null {
          return Ok(1), false, ms;
        }
      }
    }

    static lemma NothingMapped()
      ensures GoesOn([]) && MappingRun([]) && Total([]) == Ok(0)
    {
    }

    static lemma LaserMapping(m: Mapping)
      requires m.status == Ok(0) || m.status == Ok(1) || m.status == Cut
      requires (m.answered <==> m.status == Ok(0)) && (m.answered ==> m.live)
      ensures Possible(m)
    {
    }

    /** The outcomes the power meter's mapping finds. */
    ghost function FatesForMeter(): seq<Fate>
      reads this
    {
      if ignoreAttenuator then fates else Left(attenuatorSlot, host.attenuatorFound, fates)
    }

    // -----------------------------------------------------------------------
    // Shutdown
    // -----------------------------------------------------------------------

    /** The conversation with the laser ends with "stop firing" and "close the
        shutter", both taken whole. */
    ghost predicate LaserDown()
      reads laser.dev.serial
    {
      var w := laser.Wire();
      |w| >= 2 && w[|w| - 2] == Msg(FireMessage(false)) && w[|w| - 1] == Msg(ShutterMessage(false))
    }

    /** The deletions in front of the laser's, power meter then attenuator, close
        their ports without an exception. */
    predicate DeletesReturn()
      reads this
    {
      var n := (if meterSlot == Live then 1 else 0) + (if attenuatorSlot == Live then 1 else 0);
      n <= |fates| && forall i :: 0 <= i < n ==> fates[i] == Returns
    }

    /** Deletes the instances, the laser last and only after it was taken down.
        Nothing is caught here: an exception leaves the program.  When closing one
        of the other devices throws the laser hears nothing, and when "stop firing"
        does not get through the shutter is never told to close. */
    method UnmapDevices() returns (r: Result<int>, ghost e: Ending)
      requires Valid() && laserSlot != Freed && attenuatorSlot != Freed && meterSlot != Freed
      modifies this, laser`isFiring
      modifies laser.dev.serial`log, laser.dev.serial.impl`fd, laser.dev.serial.impl`isOpen
      modifies laser.dev.serial.impl`leaked, laser.dev.serial.impl.os
      ensures Valid() && ran == old(ran)
      ensures e.live == old(laserSlot == Live) && e.deleted == old(DeletesReturn()) && Orderly(e)
      ensures laser.Wire() == old(laser.Wire()) + Said(e)
      ensures r.Ok? <==> e.deleted && (e.live ==> e.close == Returned && !laser.dev.serial.impl.isOpen)
      ensures r.Ok? ==> r.value == 0 && laserSlot != Live && attenuatorSlot != Live && meterSlot != Live
      ensures r.Ok? && e.live ==> LaserDown() && !laser.isFiring
      ensures laserSlot == if !e.live then Null else if r.Ok? then Freed else Live
      ensures e.deleted <==> meterSlot != Live && attenuatorSlot != Live
      ensures old(laser.dev.serial.log) <= laser.dev.serial.log
      ensures e.live && e.deleted ==>
                Offers(old(laser.dev.serial.log), laser.dev.serial.log, "ST 0\r") || r.Cut? ||
                (r.Throw? && !laser.dev.serial.impl.isOpen)
      ensures e.live && e.deleted && old(laser.dev.Willing(5)) ==> r.Cut? || e.close == Returned
      ensures e.live && e.deleted && old(laser.dev.Refused()) ==>
                r == Throw(IoFault) && e.stop == Failed && e.close == NotCalled
    {
      hide Valid, LaserDown;
      e := Ending(laserSlot == Live, DeletesReturn(), NotCalled, NotCalled);
      assert laser.Wire() + Said(e) == laser.Wire();
      if meterSlot == Live {
        var closed := UseMeter();
        if !closed.Ok? {
          return closed.PropagateFailure(), e;
        }
        meterSlot := Freed;
      }
      if attenuatorSlot == Live {
        var closed := UseAttenuator();
        if !closed.Ok? {
          return closed.PropagateFailure(), e;
        }
        attenuatorSlot := Freed;
      }
      if laserSlot == Live {
        ghost var stop, close;
        var down;
        down, stop, close := TakeDown();
        e := e.(stop := stop, close := close);
        if !down.Ok? {
          return down.PropagateFailure(), e;
        }
        laserSlot := Freed;
      }
      return Ok(0), e;
    }

    /** Stop firing, close the shutter, close the port.  The first failure ends it. */
    method TakeDown() returns (r: Result<()>, ghost stop: Call, ghost close: Call)
      requires Valid() && laserSlot == Live
      modifies laser`isFiring
      modifies laser.dev.serial`log, laser.dev.serial.impl`fd, laser.dev.serial.impl`isOpen
      modifies laser.dev.serial.impl`leaked, laser.dev.serial.impl.os
      ensures Valid()
      ensures stop != NotCalled && (close != NotCalled <==> stop == Returned)
      ensures laser.Wire() == old(laser.Wire()) + Said(Ending(true, true, stop, close))
      ensures laser.isFiring == if stop == Returned then false else old(laser.isFiring)
      ensures r.Ok? <==> close == Returned && !laser.dev.serial.impl.isOpen
      ensures r.Ok? ==> LaserDown()
      ensures old(laser.dev.Refused()) ==> r == Throw(IoFault) && stop == Failed
      ensures old(laser.dev.serial.log) <= laser.dev.serial.log
      ensures Offers(old(laser.dev.serial.log), laser.dev.serial.log, "ST 0\r") || r.Cut? ||
              (r.Throw? && !laser.dev.serial.impl.isOpen)
      ensures close == Failed ==> r.Cut? || (r.Throw? && !laser.dev.serial.impl.isOpen) ||
                                  exists log :: old(laser.dev.serial.log) < log &&
                                                Offers(log, laser.dev.serial.log, "SH 0\r")
      ensures old(laser.dev.Willing(5)) ==> r.Cut? || close == Returned
    {
      hide Valid, Said, Offers, Device.Willing, Device.Refused, LaserDown, Laser.Wire;
      r, stop, close := Quieten();
      if !r.Ok? {
        return;
      }
      r := CloseLaser();
    }

    method CloseLaser() returns (r: Result<()>)
      requires Valid()
      modifies laser.dev.serial.impl`fd, laser.dev.serial.impl`isOpen, laser.dev.serial.impl.os
      ensures Valid() && laser.Wire() == old(laser.Wire()) && (LaserDown() <==> old(LaserDown()))
      ensures r.Ok? <==> !laser.dev.serial.impl.isOpen
    {
      hide SentBytes, HeardBytes, Digest, Settings, Disciplined, Framed;
      r := laser.dev.serial.impl.Close();
    }

    /** Stop firing, then close the shutter. */
    method Quieten() returns (r: Result<()>, ghost stop: Call, ghost close: Call)
      requires Valid() && laserSlot == Live
      modifies laser`isFiring
      modifies laser.dev.serial`log, laser.dev.serial.impl`fd, laser.dev.serial.impl`isOpen
      modifies laser.dev.serial.impl`leaked, laser.dev.serial.impl.os
      ensures Valid() && (r.Ok? <==> close == Returned) && (r.Ok? ==> laser.dev.serial.impl.isOpen && LaserDown())
      ensures stop != NotCalled && (close != NotCalled <==> stop == Returned)
      ensures laser.Wire() == old(laser.Wire()) + Said(Ending(true, true, stop, close))
      ensures laser.isFiring == if stop == Returned then false else old(laser.isFiring)
      ensures old(laser.dev.Refused()) ==> r == Throw(IoFault) && stop == Failed
      ensures old(laser.dev.serial.log) <= laser.dev.serial.log
      ensures Offers(old(laser.dev.serial.log), laser.dev.serial.log, "ST 0\r") || r.Cut? ||
              (r.Throw? && !laser.dev.serial.impl.isOpen)
      ensures close == Failed ==> r.Cut? || (r.Throw? && !laser.dev.serial.impl.isOpen) ||
                                  exists log :: old(laser.dev.serial.log) < log &&
                                                Offers(log, laser.dev.serial.log, "SH 0\r")
      ensures old(laser.dev.Willing(5)) ==> r.Cut? || close == Returned
    {
      DownTexts();
      hide Laser.Valid, Offers, Device.Refused, FireMessage, ShutterMessage, Laser.Wire;
      ghost var w, start := laser.Wire(), laser.dev.serial.log;
      close := NotCalled;
      r := laser.Fire(false);
      stop := if r.Ok? then Returned else Failed;
      assert w + [] == w && w + [Msg(FireMessage(false))] + [] == w + [Msg(FireMessage(false))];
      if !r.Ok? {
        return;
      }
      ghost var log := laser.dev.serial.log;
      r := laser.Shutter(false);
      OffersStill(start, log, laser.dev.serial.log, "ST 0\r");
      OfferedMore(start, log, "ST 0\r");
      close := if r.Ok? then Returned else Failed;
      if !r.Ok? {
        return;
      }
      assert laser.Wire() == w + [Msg(FireMessage(false))] + [Msg(ShutterMessage(false))];
      assert laser.Wire() == w + ([Msg(FireMessage(false))] + [Msg(ShutterMessage(false))]);
    }

    static lemma OfferedMore(before: seq<Event>, after: seq<Event>, msg: string)
      requires Offers(before, after, msg)
      ensures before < after
    {
    }

    static lemma DownTexts()
      ensures FireMessage(false) == "ST 0\r" && ShutterMessage(false) == "SH 0\r"
    {
    }

    // -----------------------------------------------------------------------
    // Commands
    // -----------------------------------------------------------------------

    /** The laser operation a command asks for, if any. */
    function LaserCommand(args: seq<string>): (op: Option<Result<LaserOp>>)
      ensures op.Some? ==> !op.value.Cut?
    {
      if |args| == 2 then
        if args[1] == "single_shot" then Some(Ok(DoSingleShot))
        else if args[1] == "shot_count" then Some(Ok(DoShotCount))
        else if args[1] == "security" then Some(Ok(DoSecurity))
        else if args[1] == "fire_start" then Some(Ok(DoFire(true)))
        else if args[1] == "fire_stop" then Some(Ok(DoFire(false)))
        else if args[1] == "shutter_open" then Some(Ok(DoShutter(true)))
        else if args[1] == "shutter_close" then Some(Ok(DoShutter(false)))
        else None
      else if |args| == 3 then
        var n := host.number(args[2]) % 0x1_0000_0000;
        if args[1] == "prescale" || args[1] == "division" then Some(Ok(DoPrescale(n)))
        else if args[1] == "qswitch" then Some(Ok(DoQswitch(n)))
        else if args[1] == "hv" then
          Some(if host.volts(args[2]).Some? then Ok(DoVoltage(host.volts(args[2]).value)) else Throw(OutOfRange))
        else None
      else None
    }

    /** "laser <name> <value>". */
    static predicate Tunes(args: seq<string>, name: string) {
      |args| == 3 && args[0] == "laser" && args[1] == name
    }

    /** What a command line makes the manager ask of the laser: nothing, unless
        there is a laser and the command is one of its operations. */
    function RequestIf(args: seq<string>, present: bool): seq<LaserOp> {
      if present && |args| > 0 && args[0] == "laser" && LaserCommand(args).Some? && LaserCommand(args).value.Ok?
      then [LaserCommand(args).value.value]
      else []
    }

    predicate Present()
      reads this
    {
      !ignoreLaser && laserSlot == Live
    }

    /** The same for all commands of a run. */
    function Requests(cmds: seq<seq<string>>, present: bool): seq<LaserOp> {
      if cmds == [] then []
      else Requests(cmds[..|cmds| - 1], present) + RequestIf(cmds[|cmds| - 1], present)
    }

    /** "Start firing" and "open the shutter" are asked for by their commands only. */
    lemma {:induction false} DangerousRequests(cmds: seq<seq<string>>, present: bool)
      ensures DoFire(true) in Requests(cmds, present) ==> ["laser", "fire_start"] in cmds
      ensures DoShutter(true) in Requests(cmds, present) ==> ["laser", "shutter_open"] in cmds
    {
      if cmds != [] {
        var k := |cmds| - 1;
        DangerousRequests(cmds[..k], present);
        DangerousRequest(cmds[k], present);
      }
    }

    lemma DangerousRequest(args: seq<string>, present: bool)
      ensures DoFire(true) in RequestIf(args, present) ==> args == ["laser", "fire_start"]
      ensures DoShutter(true) in RequestIf(args, present) ==> args == ["laser", "shutter_open"]
    {
    }

    /** `uint32_t` of a number argument. */
    function Number(arg: string): nat {
      host.number(arg) % 0x1_0000_0000
    }

    static function Only(ok: bool, text: string): seq<Item> {
      if ok then [Msg(text)] else []
    }

    predicate Known(args: seq<string>) {
      || (|args| == 2 && args[1] in ["single_shot", "shot_count", "security",
                                     "fire_start", "fire_stop", "shutter_open", "shutter_close"])
      || (|args| == 3 && args[1] in ["prescale", "division", "hv", "qswitch"])
    }

    /** What a line that names the laser does to the conversation, in messages: a
        setting is told whole exactly if the status is 0, a query leaves its text and a
        line, and any other line leaves the laser alone and is no failure. */
    ghost predicate Obeyed(args: seq<string>, r: Result<int>, before: seq<Item>, after: seq<Item>)
      requires |args| > 0
    {
      var ok := r == Ok(0);
      && (args == ["laser", "fire_start"] ==> after == before + Only(ok, "ST 1\r"))
      && (args == ["laser", "fire_stop"] ==> after == before + Only(ok, "ST 0\r"))
      && (args == ["laser", "shutter_open"] ==> after == before + Only(ok, "SH 1\r"))
      && (args == ["laser", "shutter_close"] ==> after == before + Only(ok, "SH 0\r"))
      && (args == ["laser", "single_shot"] ==>
            if ok then after == before + [Msg("PD 000\r"), Msg("SS\r")]
            else after == before || after == before + [Msg("PD 000\r")])
      && (args == ["laser", "security"] ==>
            before <= after && QueryLeft(after[|before|..], "SE\r") && (ok ==> |after| == |before| + 2))
      && (args == ["laser", "shot_count"] ==>
            before <= after && QueryLeft(after[|before|..], "SC\r") &&
            (ok ==> before < after && after[|after| - 1].Line?))
      && (|args| == 3 && (args[1] == "prescale" || args[1] == "division") ==>
            after == before + Only(ok, "PD " + Pad3(Min(Number(args[2]), 99)) + "\r"))
      && (|args| == 3 && args[1] == "qswitch" ==>
            after == before + Only(ok, "QS " + Pad3(Min(Number(args[2]), 999)) + "\r"))
      && (|args| == 3 && args[1] == "hv" && host.volts(args[2]).Some? ==>
            after == before + Only(ok, "VA " + host.volts(args[2]).value + "\r"))
      && (|args| == 3 && args[1] == "hv" && host.volts(args[2]).None? ==> after == before && r == Ok(1))
      && (!Known(args) ==> after == before && r == Ok(0))
    }

    /** The message such a line offers to the kernel first. */
    function Wish(args: seq<string>): Option<string>
      requires |args| > 0
    {
      if args == ["laser", "fire_start"] then Some("ST 1\r")
      else if args == ["laser", "fire_stop"] then Some("ST 0\r")
      else if args == ["laser", "shutter_open"] then Some("SH 1\r")
      else if args == ["laser", "shutter_close"] then Some("SH 0\r")
      else if args == ["laser", "single_shot"] then Some("PD 000\r")
      else if args == ["laser", "security"] then Some("SE\r")
      else if args == ["laser", "shot_count"] then Some("SC\r")
      else if |args| != 3 || args[0] != "laser" then None
      else if args[1] == "prescale" || args[1] == "division" then Some("PD " + Pad3(Min(Number(args[2]), 99)) + "\r")
      else if args[1] == "qswitch" then Some("QS " + Pad3(Min(Number(args[2]), 999)) + "\r")
      else if args[1] == "hv" && host.volts(args[2]).Some? then Some("VA " + host.volts(args[2]).value + "\r")
      else None
    }

    /** From the operation to the wire, the cache and the kernel. */
    lemma CommandMeans(args: seq<string>, d: Deed, r: Result<int>, before: seq<Item>)
      requires |args| > 0 && args[0] == "laser" && LaserCommand(args) == Some(Ok(d.op))
      requires Lawful(d) && (d.ok <==> r == Ok(0))
      ensures Obeyed(args, r, before, before + d.items)
      ensures Wish(args) == Some(d.op.First())
      ensures d.op.DoFire? <==> args == ["laser", "fire_start"] || args == ["laser", "fire_stop"]
      ensures d.op.DoFire? ==> d.op.start == (args[1] == "fire_start")
      ensures d.op.DoSingleShot? <==> args == ["laser", "single_shot"]
      ensures d.op.DoPrescale? <==> |args| == 3 && (args[1] == "prescale" || args[1] == "division")
      ensures d.op.DoQswitch? <==> |args| == 3 && args[1] == "qswitch"
      ensures d.op.DoPrescale? || d.op.DoQswitch? ==> |args| == 3 && d.op.n == Number(args[2])
    {
      if |args| == 2 {
        TwoWords(args, d, r, before);
      } else {
        ThreeWords(args, d, r, before);
      }
      hide Obeyed, Lawful, Pad3;
      if |args| == 2 {
        assert args == ["laser", args[1]];
      }
    }

    lemma TwoWords(args: seq<string>, d: Deed, r: Result<int>, before: seq<Item>)
      requires |args| == 2 && args[0] == "laser" && LaserCommand(args) == Some(Ok(d.op))
      requires Lawful(d) && (d.ok <==> r == Ok(0))
      ensures Obeyed(args, r, before, before + d.items)
    {
      assert (before + d.items)[|before|..] == d.items && args == ["laser", args[1]];
    }

    lemma ThreeWords(args: seq<string>, d: Deed, r: Result<int>, before: seq<Item>)
      requires |args| == 3 && args[0] == "laser" && LaserCommand(args) == Some(Ok(d.op))
      requires Lawful(d) && (d.ok <==> r == Ok(0))
      ensures Obeyed(args, r, before, before + d.items)
    {
      hide Pad3;
    }

    lemma NoCommand(args: seq<string>, r: Result<int>, before: seq<Item>)
      requires |args| > 0 && args[0] == "laser"
      requires if LaserCommand(args).Some? then LaserCommand(args).value.Throw? && r == Ok(1) else r == Ok(0)
      ensures Obeyed(args, r, before, before) && Wish(args) == None
      ensures r == Ok(0) ==> !Known(args)
    {
      assert |args| == 2 ==> args == ["laser", args[1]];
    }

    /** The command is one call on the attenuator or the power meter. */
    predicate Elsewhere(args: seq<string>)
      reads this
    {
      if args == [] then false
      else if args[0] == "attenuator" then !ignoreAttenuator && attenuatorSlot == Live && |args| <= 3
      else args[0] == "power_meter" && !ignoreMeter && meterSlot == Live && |args| <= 4
    }

    /** Runs one command.  The laser is asked what the command says, and hears it
        whole exactly if the status is 0; an instance is used only if there is one;
        exceptions end the program with status 1, "exit" with 255. */
    method RunCommand(args: seq<string>) returns (r: Result<int>, ghost ds: seq<Deed>)
      requires Valid() && laserSlot != Freed && attenuatorSlot != Freed && meterSlot != Freed
      modifies this`fates, this`ran, laser`isFiring, laser`prescale, laser`qswitch
      modifies laser.dev.serial`log, laser.dev.serial.impl`fd, laser.dev.serial.impl`isOpen
      modifies laser.dev.serial.impl`leaked, laser.dev.serial.impl.os
      ensures Valid()
      ensures r.Ok? || r.Cut?
      ensures ran == old(ran) + [args]
      ensures laser.Wire() == old(laser.Wire()) + Items(ds)
      ensures AllLawful(ds) && Ops(ds) == RequestIf(args, Present())
      ensures ds != [] ==> |ds| == 1 && (ds[0].ok <==> r == Ok(0))
      ensures args == [] ==> r == Ok(1)
      ensures r == Ok(255) <==> |args| > 0 && args[0] == "exit"
      ensures r.Ok? ==> r.value == 0 || r.value == 1 || r.value == 255
      ensures r == Ok(1) ==> args == [] || args[0] in DEVICES
      ensures !(Present() && |args| > 0 && args[0] == "laser") && !Elsewhere(args) && args != [] &&
              args[0] != "exit" ==>
                r == Ok(0)
      ensures fates == if Elsewhere(args) && old(fates) != [] then old(fates)[1..] else old(fates)
      ensures Elsewhere(args) ==>
                r == if old(fates) == [] then Cut else if old(fates)[0] == Returns then Ok(0) else Ok(1)
      ensures Present() && |args| > 0 && args[0] == "laser" ==> Obeyed(args, r, old(laser.Wire()), laser.Wire())
      ensures Present() && |args| > 0 && args[0] == "laser" && Wish(args).Some? ==>
                Offers(old(laser.dev.serial.log), laser.dev.serial.log, Wish(args).value) || r.Cut? ||
                !laser.dev.serial.impl.isOpen
      ensures !(Present() && |args| > 0 && args[0] == "laser") ==> laser.Wire() == old(laser.Wire())
      ensures laser.isFiring == if Present() && r == Ok(0) && args == ["laser", "fire_start"] then true
                                else if Present() && r == Ok(0) && args == ["laser", "fire_stop"] then false
                                else old(laser.isFiring)
      ensures laser.prescale == if Present() && r == Ok(0) && (Tunes(args, "prescale") || Tunes(args, "division"))
                                then Min(Number(args[2]), 99)
                                else if Present() && args == ["laser", "single_shot"]
                                        && laser.Wire() != old(laser.Wire()) then 0
                                else old(laser.prescale)
      ensures laser.qswitch == if Present() && r == Ok(0) && Tunes(args, "qswitch") then Min(Number(args[2]), 999)
                               else old(laser.qswitch)
    {
      hide Valid, LaserCommand, Items, Ops, AllLawful, Lawful, Obeyed, Wish, Number, Offers, Laser.Wire;
      NoDeeds();
      assert laser.Wire() + [] == laser.Wire();
      ds := [];
      ran := ran + [args];
      if |args| < 1 {
        return Ok(1), ds;
      }
      if args[0] == "exit" {
        return Ok(255), ds;
      }
      var done := Ok(());
      if args[0] == "laser" && !ignoreLaser && laserSlot != Null {
        var op := LaserCommand(args);
        if op.Some? {
          if op.value.Ok? {
            ghost var d;
            ghost var w := laser.Wire();
            done, d := UseLaser(op.value.value);
            OneDeed(d);
            ds := [d];
            CommandMeans(args, d, Caught(done), w);
            assert laser.Wire() == w <==> d.items == [];
          } else {
            done := op.value.PropagateFailure();
            NoCommand(args, Caught(done), laser.Wire());
          }
        } else {
          NoCommand(args, Ok(0), laser.Wire());
        }
      } else if args[0] == "attenuator" && !ignoreAttenuator && attenuatorSlot != Null {
        if 1 <= |args| <= 3 {
          done := UseAttenuator();
        }
      } else if args[0] == "power_meter" && !ignoreMeter && meterSlot != Null {
        if 1 <= |args| <= 4 {
          done := UseMeter();
        }
      }
      return Caught(done), ds;
    }

    // -----------------------------------------------------------------------
    // The program
    // -----------------------------------------------------------------------

    /** One input line: split it and run it. */
    method RunLine(line: string) returns (r: Result<int>, ghost ds: seq<Deed>)
      requires Valid() && laserSlot != Freed && attenuatorSlot != Freed && meterSlot != Freed
      modifies this`fates, this`ran, laser`isFiring, laser`prescale, laser`qswitch
      modifies laser.dev.serial`log, laser.dev.serial.impl`fd, laser.dev.serial.impl`isOpen
      modifies laser.dev.serial.impl`leaked, laser.dev.serial.impl.os
      ensures Valid()
      ensures r.Ok? || r.Cut?
      ensures ran == old(ran) + [Words(line)]
      ensures laser.Wire() == old(laser.Wire()) + Items(ds)
      ensures AllLawful(ds) && Ops(ds) == RequestIf(Words(line), Present())
      ensures ds != [] ==> |ds| == 1 && (ds[0].ok <==> r == Ok(0))
      ensures r.Ok? ==> r.value == 0 || r.value == 1 || r.value == 255
      ensures r == Ok(1) ==> Words(line) == [] || Words(line)[0] in DEVICES
      ensures Words(line) == [] ==> r == Ok(1)
      ensures r == Ok(255) <==> Words(line) != [] && Words(line)[0] == "exit"
      ensures Present() && Words(line) != [] && Words(line)[0] == "laser" ==>
                Obeyed(Words(line), r, old(laser.Wire()), laser.Wire())
      ensures Present() && Words(line) != [] && Words(line)[0] == "laser" && Wish(Words(line)).Some? ==>
                Offers(old(laser.dev.serial.log), laser.dev.serial.log, Wish(Words(line)).value) || r.Cut? ||
                !laser.dev.serial.impl.isOpen
      ensures !(Present() && Words(line) != [] && Words(line)[0] == "laser") ==> laser.Wire() == old(laser.Wire())
      ensures laser.isFiring == if Present() && r == Ok(0) && Words(line) == ["laser", "fire_start"] then true
                                else if Present() && r == Ok(0) && Words(line) == ["laser", "fire_stop"] then false
                                else old(laser.isFiring)
      ensures laser.prescale == if Present() && r == Ok(0) &&
                                   (Tunes(Words(line), "prescale") || Tunes(Words(line), "division"))
                                then Min(Number(Words(line)[2]), 99)
                                else if Present() && Words(line) == ["laser", "single_shot"]
                                        && laser.Wire() != old(laser.Wire()) then 0
                                else old(laser.prescale)
      ensures laser.qswitch == if Present() && r == Ok(0) && Tunes(Words(line), "qswitch")
                               then Min(Number(Words(line)[2]), 999) else old(laser.qswitch)
    {
      hide Valid, Words, Spaces, NonEmpty, RequestIf, Items, Ops, AllLawful, Elsewhere, Obeyed, Wish, Number, Offers;
      hide Laser.Wire;
      var argc, cmd := SplitLine(line);
      var args := seq(argc, i requires 0 <= i < argc <= cmd.Length && (forall j :: 0 <= j < argc ==> cmd[j].Some?)
                              reads cmd => cmd[i].value);
      assert args == Words(line);
      r, ds := RunCommand(args);
    }

    /** The commands in the input: the words of every line that is not empty. */
    static function Commands(lines: seq<string>): seq<seq<string>> {
      if lines == [] then []
      else
        var l := lines[|lines| - 1];
        Commands(lines[..|lines| - 1]) + (if l == [] then [] else [Words(l)])
    }

    static lemma {:induction false} CommandsPrefix(lines: seq<string>, i: nat)
      requires i <= |lines|
      ensures Commands(lines[..i]) <= Commands(lines)
      ensures i < |lines| ==>
                Commands(lines[..i + 1]) == Commands(lines[..i]) + (if lines[i] == [] then [] else [Words(lines[i])])
      decreases |lines| - i
    {
      if i == |lines| {
        assert lines[..i] == lines;
      } else {
        CommandsPrefix(lines, i + 1);
        assert lines[..i + 1][..i] == lines[..i];
      }
    }

    /** From mapping to the end of the input.  Commands run in input order; they
        stop short of the end only at "exit" or with a failure status.  Every way
        out, normal or by an exception, goes through the way down.  All the laser
        hears is the first queries, what the commands ask of it, and the way down, in
        this order; so "start firing" and "open the shutter" take their commands.  If
        the program returns normally no instance is left, and if a laser was created
        the last thing it heard is "stop firing" and "close the shutter". */
    method RunProgram(lines: seq<string>) returns (r: Result<int>, ghost h: History)
      requires Valid() && laserSlot == Null && attenuatorSlot == Null && meterSlot == Null && ran == []
      modifies this, laser`isFiring, laser`prescale, laser`qswitch
      modifies laser.dev.serial`log, laser.dev.serial.impl`fd, laser.dev.serial.impl`isOpen
      modifies laser.dev.serial.impl`leaked, laser.dev.serial.impl.os
      ensures Valid()
      ensures Explains(h, ran, laserSlot != Null, old(laser.Wire()), laser.Wire())
      ensures h.greeting != [] <==> laserSlot != Null
      ensures !h.ended ==> r.Cut?
      ensures h.ended ==> Orderly(h.ending) && (h.ending.live <==> laserSlot != Null)
      ensures h.ended ==> (h.ending.deleted <==> meterSlot != Live && attenuatorSlot != Live)
      ensures h.ended ==> (r.Ok? <==> h.ending.deleted && (h.ending.live ==>
                                      h.ending.close == Returned && !laser.dev.serial.impl.isOpen))
      ensures h.ended ==> h.mark <= |laser.dev.serial.log| &&
                          Digest(laser.dev.serial.log[..h.mark]) == old(laser.Wire()) + Items(h.greeting + h.deeds)
      ensures h.ended && h.ending.live && h.ending.deleted ==>
                Offers(laser.dev.serial.log[..h.mark], laser.dev.serial.log, "ST 0\r") || r.Cut? ||
                (r.Throw? && !laser.dev.serial.impl.isOpen)
      ensures r.Ok? ==> laserSlot != Live && attenuatorSlot != Live && meterSlot != Live
      ensures r.Ok? && laserSlot != Null ==> LaserDown() && !laser.isFiring
      ensures MappingRun(h.mapping) && |h.mapping| <= old(Wanted())
      ensures !old(ignoreAttenuator) ==>
                h.mapping != [] && h.mapping[0] == Mapped(Null, host.attenuatorFound, old(fates))
      ensures ran <= Commands(lines) && (Total(h.mapping) != Ok(0) ==> ran == [])
      ensures Total(h.mapping) == Ok(0) && r == Ok(0) ==>
                ran == Commands(lines) || (|ran| > 0 && |ran[|ran| - 1]| > 0 && ran[|ran| - 1][0] == "exit")
      ensures Codes(h.codes, ran) && (Total(h.mapping) != Ok(0) ==> h.codes == [])
      ensures r.Ok? ==> r.value == (if EndsInFailure(h.codes) then 1 else 0)
      ensures r.Ok? && Total(h.mapping) == Ok(0) && !EndsInFailure(h.codes) && !EndsInExit(h.codes) ==>
                ran == Commands(lines)
      ensures r.Ok? ==> Went(h.deeds, EndsInFailure(h.codes) && RequestIf(ran[|ran| - 1], laserSlot != Null) != [])
      ensures old(ignoreAttenuator && !ignoreLaser && ignoreMeter && OpensThenRefuses()) && host.laserFound &&
              RefusesMessage(old(laser.dev.serial.impl.os.script)[5..]) ==>
                r == Throw(IoFault) && h.ended && h.ending == Ending(true, true, Failed, NotCalled)
    {
      hide Valid, LaserDown, Words, Commands, Said, Orderly, MappingRun, Total, Mapped, Explains, Laser.Valid, Items;
      hide Laser.Valid;
      hide Codes, EndsInFailure, EndsInExit, Offers, Device.Willing, Digest;
      hide RefusesMessage, OpensThenRefuses, Opens, Wanted, DeletesReturn;
      r, h := Work(lines);
      if !r.Ok? {
        return;
      }
      var status := r.value;
      NothingToDelete();
      ghost var w, log, e := laser.Wire(), laser.dev.serial.log, h.ending;
      WireSoFar(h, ran, laserSlot != Null, old(laser.Wire()), w);
      r, e := UnmapDevices();
      TheWayDown(h, ran, laserSlot != Null, old(laser.Wire()), w, e);
      h := h.(ended := true, mark := |log|, ending := e);
      assert laser.dev.serial.log[..|log|] == log;
      if r.Ok? {
        r := Ok(status);
      }
    }

    /** All that the laser hears in a run, and why: the first queries, what the
        commands ask of it and, if the run gets there, the way down.  No message to
        start firing or to open the shutter is among it without its command. */
    ghost predicate Explains(h: History, cmds: seq<seq<string>>, present: bool, before: seq<Item>, after: seq<Item>) {
      && after == before + Items(h.greeting + h.deeds) + (if h.ended then Said(h.ending) else [])
      && Greeting(h.greeting) && AllLawful(h.deeds) && Ops(h.deeds) == Requests(cmds, present)
      && (Msg(FireMessage(true)) in after && Msg(FireMessage(true)) !in before ==> ["laser", "fire_start"] in cmds)
      && (Msg(ShutterMessage(true)) in after && Msg(ShutterMessage(true)) !in before ==>
          ["laser", "shutter_open"] in cmds)
    }

    lemma WireSoFar(h: History, cmds: seq<seq<string>>, present: bool, before: seq<Item>, after: seq<Item>)
      requires Explains(h, cmds, present, before, after) && !h.ended
      ensures after == before + Items(h.greeting + h.deeds)
    {
      hide Items, Greeting, AllLawful, Requests, Ops, Said;
      assert before + Items(h.greeting + h.deeds) + [] == before + Items(h.greeting + h.deeds);
    }

    lemma NothingToDelete()
      ensures meterSlot == Null && attenuatorSlot == Null ==> DeletesReturn()
    {
    }

    lemma TheWayDown(h: History, cmds: seq<seq<string>>, present: bool, before: seq<Item>, after: seq<Item>, e: Ending)
      requires Explains(h, cmds, present, before, after) && !h.ended
      ensures forall m :: Explains(h.(ended := true, mark := m, ending := e), cmds, present, before, after + Said(e))
    {
      HarmlessEnding(e);
      hide Said, Items, Ops, Greeting, AllLawful, Requests, FireMessage, ShutterMessage;
      assert before + Items(h.greeting + h.deeds) + [] == before + Items(h.greeting + h.deeds);
    }

    /** Mapping, and if that gave 0, the commands. */
    method Work(lines: seq<string>) returns (r: Result<int>, ghost h: History)
      requires Valid() && laserSlot == Null && attenuatorSlot == Null && meterSlot == Null && ran == []
      modifies this, laser`isFiring, laser`prescale, laser`qswitch
      modifies laser.dev.serial`log, laser.dev.serial.impl`fd, laser.dev.serial.impl`isOpen
      modifies laser.dev.serial.impl`leaked, laser.dev.serial.impl.os
      ensures Valid() && (r.Ok? || r.Cut?) && !h.ended
      ensures laserSlot != Freed && attenuatorSlot != Freed && meterSlot != Freed
      ensures Explains(h, ran, laserSlot != Null, old(laser.Wire()), laser.Wire())
      ensures h.greeting != [] <==> laserSlot != Null
      ensures MappingRun(h.mapping) && |h.mapping| <= old(Wanted())
      ensures !old(ignoreAttenuator) ==>
                h.mapping != [] && h.mapping[0] == Mapped(Null, host.attenuatorFound, old(fates))
      ensures ran <= Commands(lines) && (Total(h.mapping) != Ok(0) ==> ran == [])
      ensures Total(h.mapping) == Ok(0) && r == Ok(0) ==>
                ran == Commands(lines) || (|ran| > 0 && |ran[|ran| - 1]| > 0 && ran[|ran| - 1][0] == "exit")
      ensures Codes(h.codes, ran) && (Total(h.mapping) != Ok(0) ==> h.codes == [])
      ensures r.Ok? ==> r.value == (if EndsInFailure(h.codes) then 1 else 0)
      ensures r.Ok? && Total(h.mapping) == Ok(0) && !EndsInFailure(h.codes) && !EndsInExit(h.codes) ==>
                ran == Commands(lines)
      ensures r.Ok? ==> Went(h.deeds, EndsInFailure(h.codes) && RequestIf(ran[|ran| - 1], laserSlot != Null) != [])
      ensures old(ignoreAttenuator && !ignoreLaser && ignoreMeter && OpensThenRefuses()) && host.laserFound ==>
                && r.Ok? && laserSlot == Live && attenuatorSlot == Null && meterSlot == Null
                && Refusing(old(laser.dev.serial.impl.os.script))
    {
      hide Valid, Words, Commands, MappingRun, Total, Mapped, Explains, Laser.Wire, Laser.Valid;
      hide Codes, EndsInFailure, EndsInExit;
      hide Greeting, Greeted, Requests, Items, Ops, AllLawful, OpensThenRefuses, FatesForMeter, Instances;
      ghost var w := laser.Wire();
      ghost var ms, ds, es;
      r, ms, ds := MapDevices();
      h := History(ms, ds, [], [], false, 0, Ending(false, false, NotCalled, NotCalled));
      NoCodes();
      CommandsEmpty(lines);
      NeverThrows(ms);
      NothingAsked(laserSlot != Null);
      assert laser.Wire() + [] == laser.Wire();
      AllHeard(w, h, ran, laserSlot != Null);
      if !r.Ok? {
        return;
      }
      if r.value != 0 {
        return Ok(0), h;
      }
      ghost var codes;
      r, es, codes := RunLines(lines);
      h := h.(deeds := es, codes := codes);
      AllHeard(w, h, ran, laserSlot != Null);
    }

    /** The read-and-run loop, up to its exit. */
    method RunLines(lines: seq<string>) returns (r: Result<int>, ghost ds: seq<Deed>, ghost codes: seq<int>)
      requires Valid() && laserSlot != Freed && attenuatorSlot != Freed && meterSlot != Freed && ran == []
      modifies this`fates, this`ran, laser`isFiring, laser`prescale, laser`qswitch
      modifies laser.dev.serial`log, laser.dev.serial.impl`fd, laser.dev.serial.impl`isOpen
      modifies laser.dev.serial.impl`leaked, laser.dev.serial.impl.os
      ensures Valid() && (r.Ok? || r.Cut?)
      ensures laser.Wire() == old(laser.Wire()) + Items(ds)
      ensures AllLawful(ds) && Ops(ds) == Requests(ran, Present())
      ensures ran <= Commands(lines)
      ensures r == Ok(0) ==>
                ran == Commands(lines) || (|ran| > 0 && |ran[|ran| - 1]| > 0 && ran[|ran| - 1][0] == "exit")
      ensures Codes(codes, ran) && (r.Ok? ==> |codes| == |ran|)
      ensures r.Ok? ==> r.value == (if EndsInFailure(codes) then 1 else 0)
      ensures r.Ok? && !EndsInFailure(codes) && !EndsInExit(codes) ==> ran == Commands(lines)
      ensures r.Ok? ==> Went(ds, EndsInFailure(codes) && RequestIf(ran[|ran| - 1], Present()) != [])
    {
      hide Valid, Words, Commands, Lawful, AllLawful, Items, Ops, Requests, RequestIf, Obeyed, Wish, Number;
      hide Offers, Codes, Laser.Wire;
      CommandsEmpty(lines);
      NothingAsked(Present());
      NoDeeds();
      NoCodes();
      ghost var w := laser.Wire();
      assert w + [] == w;
      r, ds, codes := Ok(0), [], [];
      for i := 0 to |lines|
        invariant Valid() && r == Ok(0)
        invariant ran == Commands(lines[..i])
        invariant laser.Wire() == w + Items(ds)
        invariant AllLawful(ds) && Ops(ds) == Requests(ran, Present())
        invariant Went(ds, false)
        invariant |codes| == |ran| && Codes(codes, ran) && forall k :: 0 <= k < |codes| ==> codes[k] == 0
      {
        CommandsPrefix(lines, i);
        CommandsPrefix(lines, i + 1);
        if lines[i] != [] {
          ghost var more;
          r, more := RunLine(lines[i]);
          DeedsAppend(ds, more);
          Associate(w, Items(ds), Items(more));
          RequestsSnoc(Commands(lines[..i]), Words(lines[i]), Present());
          ds := ds + more;
          if !r.Ok? {
            CodesStill(codes, Commands(lines[..i]), Words(lines[i]));
            return;
          }
          WentOn(ds[..|ds| - |more|], more, r.value != 0);
          Granted(more, Words(lines[i]));
          CodesSnoc(codes, Commands(lines[..i]), r.value, Words(lines[i]));
          codes := codes + [r.value];
          if r.value != 0 {
            r := Ok(if r.value == 255 then 0 else r.value);
            return;
          }
        }
      }
      assert lines[..|lines|] == lines;
    }

    /** How the commands ended: only the last may have failed or have been "exit". */
    static predicate Codes(codes: seq<int>, cmds: seq<seq<string>>) {
      && |codes| <= |cmds|
      && (forall i :: 0 <= i < |codes| - 1 ==> codes[i] == 0)
      && (forall i :: 0 <= i < |codes| ==> codes[i] == 0 || codes[i] == 1 || codes[i] == 255)
      && (forall i :: 0 <= i < |codes| ==> (codes[i] == 255 <==> cmds[i] != [] && cmds[i][0] == "exit"))
      && (forall i :: 0 <= i < |codes| ==> cmds[i] == [] ==> codes[i] == 1)
      && (forall i :: 0 <= i < |codes| ==> codes[i] == 1 ==> cmds[i] == [] || cmds[i][0] in DEVICES)
    }

    /** What was asked of the laser was granted, save the last of it if that is why the
        run ended. */
    static predicate Went(ds: seq<Deed>, failed: bool) {
      && (failed ==> ds != [])
      && (forall i :: 0 <= i < |ds| ==> (ds[i].ok <==> !(failed && i == |ds| - 1)))
    }

    static lemma WentOn(ds: seq<Deed>, more: seq<Deed>, failed: bool)
      requires Went(ds, false) && |more| <= 1 && (more != [] ==> (more[0].ok <==> !failed))
      ensures Went(ds + more, failed && more != [])
    {
    }

    lemma Granted(ds: seq<Deed>, args: seq<string>)
      requires Ops(ds) == RequestIf(args, Present())
      ensures ds == [] <==> RequestIf(args, Present()) == []
      ensures args != [] && args[0] == "exit" ==> ds == []
    {
      hide LaserCommand;
    }

    static predicate EndsInFailure(codes: seq<int>) {
      codes != [] && codes[|codes| - 1] == 1
    }

    static predicate EndsInExit(codes: seq<int>) {
      codes != [] && codes[|codes| - 1] == 255
    }

    static lemma CodesSnoc(codes: seq<int>, cmds: seq<seq<string>>, code: int, args: seq<string>)
      requires |codes| == |cmds| && Codes(codes, cmds) && forall k :: 0 <= k < |codes| ==> codes[k] == 0
      requires code == 0 || code == 1 || code == 255
      requires (code == 255 <==> args != [] && args[0] == "exit") && (args == [] ==> code == 1)
      requires code == 1 ==> args == [] || args[0] in DEVICES
      ensures Codes(codes + [code], cmds + [args])
    {
    }

    static lemma CodesStill(codes: seq<int>, cmds: seq<seq<string>>, args: seq<string>)
      requires Codes(codes, cmds)
      ensures Codes(codes, cmds + [args])
    {
    }

    static lemma NoCodes()
      ensures Codes([], []) && !EndsInFailure([]) && !EndsInExit([])
    {
    }

    lemma RequestsSnoc(cmds: seq<seq<string>>, args: seq<string>, present: bool)
      ensures Requests(cmds + [args], present) == Requests(cmds, present) + RequestIf(args, present)
    {
      hide RequestIf;
      assert (cmds + [args])[..|cmds|] == cmds;
    }

    lemma NothingAsked(present: bool)
      ensures Requests([], present) == []
      ensures Items([]) == [] && Ops([]) == [] && AllLawful([])
    {
    }

    lemma AllHeard(w: seq<Item>, h: History, cmds: seq<seq<string>>, present: bool)
      requires Greeting(h.greeting) && AllLawful(h.deeds) && Ops(h.deeds) == Requests(cmds, present) && !h.ended
      ensures Explains(h, cmds, present, w, w + Items(h.greeting) + Items(h.deeds))
    {
      HarmlessGreeting(h.greeting);
      hide Greeting, Items, Ops, AllLawful, Requests, Said, FireMessage, ShutterMessage;
      DeedsAppend(h.greeting, h.deeds);
      Associate(w, Items(h.greeting), Items(h.deeds));
      DangerousDeeds(h.greeting);
      DangerousDeeds(h.deeds);
      DangerousRequests(cmds, present);
    }

    static lemma HarmlessGreeting(ds: seq<Deed>)
      requires Greeting(ds)
      ensures AllLawful(ds) && DoFire(true) !in Ops(ds) && DoShutter(true) !in Ops(ds)
    {
      hide Lawful;
    }

    static lemma HarmlessEnding(e: Ending)
      ensures Msg(FireMessage(true)) !in Said(e) && Msg(ShutterMessage(true)) !in Said(e)
    {
    }

    static lemma NeverThrows(ms: seq<Mapping>)
      ensures MappingRun(ms) ==> !Total(ms).Throw?
    {
    }

    static lemma CommandsEmpty(lines: seq<string>)
      ensures lines[..0] == [] && Commands(lines[..0]) == [] && [] <= Commands(lines)
    {
    }
  }

  // -------------------------------------------------------------------------
  // Inputs on which the natural promises fail
  // -------------------------------------------------------------------------

  /** A laser on a port whose kernel answers by this script. */
  method SomeLaser(script: seq<Answer>) returns (laser: Laser)
    ensures fresh(laser) && fresh(laser.dev.serial) && fresh(laser.dev.serial.impl) && fresh(laser.dev.serial.impl.os)
    ensures laser.Valid() && !laser.dev.serial.impl.isOpen && laser.dev.serial.impl.path == "tty"
    ensures laser.dev.serial.impl.os.script == script && laser.dev.serial.impl.os.live == {}
  {
    var os := new Os(script, "");
    var serial := new Serial(os, "tty", Timeout(0, 0, 0, 0, 0));
    var dev := new Device(serial, "", "\r", "\r");
    laser := new Laser(dev);
  }

  /** `map_devices` hides a failure: the attenuator's first query throws, the power
      meter's does not, and the status is 0. */
  method HiddenFailure() returns (r: Result<int>, ghost ms: seq<Mapping>)
    ensures r == Ok(0) && |ms| == 2 && !ms[0].answered && ms[0].status == Ok(1)
  {
    var laser := SomeLaser([]);
    var host := Host(false, true, true, (_) => 0, (_) => None);
    var session := new Session(host, laser, true, false, false, [Returns, Throws, Returns, Returns]);
    assert [Returns, Throws, Returns, Returns][2..] == [Returns, Returns];
    ghost var ds;
    r, ms, ds := session.MapDevices();
  }

  /** A whole run that ends in an exception without the shutter being told to close,
      although nothing is in the way of the laser: the kernel refuses the message
      that asks for the security code and the one that stops the laser. */
  method RefusedStop() returns (r: Result<int>, ghost h: History)
    ensures r == Throw(IoFault) && h.ended && h.ending == Ending(true, true, Failed, NotCalled)
  {
    var laser := SomeLaser(RefusingScript());
    var host := Host(true, true, true, (_) => 0, (_) => None);
    hide Laser.Valid, Said, RefusingScript, RefusesMessage, Opens, Session.Valid;
    var session := new Session(host, laser, false, true, true, []);
    r, h := session.RunProgram([]);
  }

  /** Open, configure, then twice two flushes and a wait that fails. */
  function RefusingScript(): (script: seq<Answer>)
    ensures |script| >= 5 && Opens(script, {}) && RefusesMessage(script[2..]) && RefusesMessage(script[5..])
  {
    var fine, refused := Answer(3, false, true, 0), Answer(-1, false, false, 0);
    [fine, fine, fine, fine, refused, fine, fine, refused]
  }
}
