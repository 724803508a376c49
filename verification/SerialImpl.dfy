/** The Unix implementation of a serial port: descriptor life cycle and the
    blocking read and write loops. */
module UnixPort {
  import opened Outcome
  import opened Decimal
  import opened Timer
  import opened Kernel

  datatype Timeout = Timeout(interByte: nat, readConstant: nat, readMultiplier: nat,
                             writeConstant: nat, writeMultiplier: nat)

  const TIMEOUT_MAX: nat := 0xFFFF_FFFF

  /** The millisecond budget that reaches the timer of a read of `size` bytes: the
      promised one exactly when that fits the timer's 32-bit argument. */
  function ReadBudget(t: Timeout, size: nat): (ms: nat)
    ensures ms == t.readConstant + t.readMultiplier * size
       <==> t.readConstant + t.readMultiplier * size < UINT32_LIMIT
  {
    ToUint32(t.readConstant + t.readMultiplier * size)
  }

  /** The buffer `was` with `data` written over it from `at`. */
  function Splice(was: string, at: nat, data: string): string
    requires at + |data| <= |was|
  {
    was[..at] + data + was[at + |data|..]
  }

  lemma SpliceTwice(was: string, at: nat, a: string, b: string)
    requires at + |a| + |b| <= |was|
    ensures Splice(Splice(was, at, a), at + |a|, b) == Splice(was, at, a + b)
  {
  }

  function WriteBudget(t: Timeout, size: nat): (ms: nat)
    ensures ms == t.writeConstant + t.writeMultiplier * size
       <==> t.writeConstant + t.writeMultiplier * size < UINT32_LIMIT
  {
    ToUint32(t.writeConstant + t.writeMultiplier * size)
  }

  /** The next two calls, open and configure, succeed. */
  predicate Opens(script: seq<Answer>, live: set<int>) {
    |script| >= 2 && script[0].ret >= 0 && script[0].ret !in live && script[1].ret != -1
  }

  /** A byte that is there is handed over: at once, or the first read brings nothing
      but leaves at least a millisecond, the wait that follows finds the port ready,
      and the read after that brings something. */
  predicate Yields(script: seq<Answer>, millis: nat) {
    && script != []
    && (script[0].ret > 0 || (Ready(script[1..]) && script[0].pause + NANOS_PER_MS <= millis * NANOS_PER_MS))
  }

  /** How many answers that takes. */
  function Used(script: seq<Answer>): (k: nat)
    requires script != []
    ensures k > 0
  {
    if script[0].ret > 0 then 1 else 3
  }

  class SerialImpl {
    const os: Os
    var path: string
    var fd: int
    var isOpen: bool
    var timeout: Timeout
    ghost var leaked: set<int>   // opened, never configured, no longer closable

    /** An open port has a live descriptor, and the live descriptors are that
        one together with those lost to failed configurations. */
    ghost predicate Valid()
      reads this, os
    {
      && (isOpen ==> fd in os.live && fd !in leaked)
      && os.live == leaked + (if isOpen then {fd} else {})
      && (forall d <- os.live :: d >= 0)
      && os.Sound()
    }

    constructor (os: Os, path: string, timeout: Timeout)
      requires os.live == {} && os.Sound()
      ensures Valid() && !isOpen && leaked == {}
      ensures this.os == os && this.path == path && this.timeout == timeout
    {
      this.os, this.path, this.timeout := os, path, timeout;
      fd, isOpen, leaked := -1, false, {};
    }

    /** A port that opens normally is open on a new descriptor; any failure
        leaves it as closed as it was.  A descriptor is lost just when `open(2)`
        succeeded and the configuration did not. */
    method Open() returns (r: Result<()>)
      requires Valid()
      modifies this`fd, this`isOpen, this`leaked
      modifies os`script, os`now, os`last, os`live, os`opens
      ensures r != Throw(RuntimeFault)
      ensures Valid()
      ensures |os.script| <= |old(os.script)| && os.now >= old(os.now)
      ensures path == "" ==> r == Throw(InvalidArgument)
      ensures path != "" && old(isOpen) ==> r == Throw(SerialFault)
      ensures path == "" || old(isOpen) ==> isOpen == old(isOpen) && fd == old(fd) && os.opens == old(os.opens)
      ensures path != "" && !old(isOpen) ==> os.opens > old(os.opens) || r.Cut?
      ensures r.Ok? <==> !old(isOpen) && isOpen
      ensures !r.Ok? ==> isOpen == old(isOpen)
      ensures r.Ok? ==> leaked == old(leaked)
      ensures r == Throw(IoFault) ==> os.last.n == -1
      ensures leaked == old(leaked) || (fd !in old(os.live) && leaked == old(leaked) + {fd})
      ensures path != "" && !old(isOpen) && Opens(old(os.script), old(os.live)) ==>
                r.Ok? && os.script == old(os.script)[2..] && fd == old(os.script)[0].ret
      decreases |os.script|
    {
      if path == "" {
        return Throw(InvalidArgument);
      }
      if isOpen {
        return Throw(SerialFault);
      }
      var ret :- os.Open();
      fd := ret.n;
      if fd == -1 {
        if ret.eintr {
          r := Open();
          return;
        }
        return Throw(IoFault);
      }
      leaked := leaked + {fd};
      var _ :- Reconfigure();
      leaked := leaked - {fd};
      isOpen := true;
      return Ok(());
    }

    method Reconfigure() returns (r: Result<()>)
      requires fd == -1 || fd in os.live
      modifies os`script, os`now, os`last
      ensures r != Throw(RuntimeFault)
      ensures old(os.Sound()) ==> os.Sound()
      ensures |os.script| <= |old(os.script)| && os.now >= old(os.now)
      ensures fd == -1 ==> r == Throw(IoFault)
      ensures fd != -1 && old(os.script) != [] && old(os.script)[0].ret != -1 ==>
                r.Ok? && os.script == old(os.script)[1..]
      ensures fd != -1 && r.Throw? ==> r.error == IoFault && os.last.n == -1
    {
      if fd == -1 {
        return Throw(IoFault);
      }
      var ret :- os.Control(fd);
      return if ret.n == -1 then Throw(IoFault) else Ok(());
    }

    /** Closing a closed port does nothing; a failed `close(2)` leaves it open. */
    method Close() returns (r: Result<()>)
      requires Valid()
      modifies this`fd, this`isOpen, os`script, os`now, os`last, os`live
      ensures r != Throw(RuntimeFault)
      ensures Valid()
      ensures |os.script| <= |old(os.script)| && os.now >= old(os.now)
      ensures !old(isOpen) ==> r.Ok? && fd == old(fd) && os.live == old(os.live)
      ensures r.Ok? ==> !isOpen
      ensures !r.Ok? ==> isOpen == old(isOpen) && fd == old(fd) && os.live == old(os.live)
      ensures r.Throw? ==> r.error == IoFault && os.last.n != 0
      ensures old(isOpen) && old(os.script) != [] && old(os.script)[0].ret == 0 ==>
                r.Ok? && os.script == old(os.script)[1..] && os.live <= old(os.live)
    {
      if isOpen {
        if fd != -1 {
          var ret :- os.Close(fd);
          if ret.n == 0 {
            fd := -1;
          } else {
            return Throw(IoFault);
          }
        }
        isOpen := false;
      }
      return Ok(());
    }

    method FlushInput() returns (r: Result<()>)
      requires Valid()
      modifies os`script, os`now, os`last, os`incoming, os`flushes
      ensures Valid()
      ensures |os.script| <= |old(os.script)| && os.now >= old(os.now)
      ensures r.Ok? ==> old(os.script) != [] && os.script == old(os.script)[1..]
      ensures isOpen && old(os.script) != [] ==> r.Ok?
      ensures !isOpen ==> r == Throw(PortNotOpened) && os.incoming == old(os.incoming)
      ensures r.Ok? ==> os.flushes == old(os.flushes) + 1
      ensures isOpen ==> !r.Throw?
    {
      if !isOpen {
        return Throw(PortNotOpened);
      }
      r := os.FlushInput(fd);
    }

    /** tcflush(TCOFLUSH) or tcdrain: nothing the model observes changes. */
    method FlushOutput() returns (r: Result<()>)
      requires Valid()
      modifies os`script, os`now, os`last
      ensures Valid()
      ensures |os.script| <= |old(os.script)| && os.now >= old(os.now)
      ensures r.Ok? ==> old(os.script) != [] && os.script == old(os.script)[1..]
      ensures isOpen && old(os.script) != [] ==> r.Ok?
      ensures !isOpen ==> r == Throw(PortNotOpened)
      ensures isOpen ==> !r.Throw?
    {
      if !isOpen {
        return Throw(PortNotOpened);
      }
      var _ :- os.Control(fd);
      return Ok(());
    }

    /** True says that there is something to read, false that the whole time went
        by without, or that a signal cut the wait short. */
    method WaitReadable(millis: nat) returns (r: Result<bool>)
      requires isOpen && fd in os.live
      modifies os`script, os`now, os`last
      ensures old(os.Sound()) ==> os.Sound()
      ensures os.now >= old(os.now)
      ensures |os.script| <= |old(os.script)|
      ensures r.Ok? ==> |os.script| < |old(os.script)|
      ensures r.Cut? <==> old(os.script) == []
      ensures old(os.script) != [] ==> os.script == old(os.script)[1..]
      ensures r == Ok(true) <==> old(os.script) != [] && old(os.script)[0].ret > 0 && old(os.script)[0].listed
      ensures r.Throw? <==> old(os.script) != [] &&
                            (Fails(old(os.script)[0]) || (old(os.script)[0].ret > 0 && !old(os.script)[0].listed))
      ensures r.Throw? ==> r.error == IoFault
      ensures r == Ok(false) && old(os.script)[0].ret == 0 ==> os.now - old(os.now) >= millis * NANOS_PER_MS
    {
      TimespecFromMsExact(millis);
      var ret, listed := os.Select(fd, Nanos(TimespecFromMs(millis)));
      if ret.Cut? {
        return Cut;
      }
      if ret.value.n < 0 {
        return if ret.value.eintr then Ok(false) else Throw(IoFault);
      }
      if ret.value.n == 0 {
        return Ok(false);
      }
      return if listed then Ok(true) else Throw(IoFault);
    }

    /** The wait for the rest of a fixed-length read: `available` may throw. */
    method WaitForRest() returns (r: Result<()>)
      requires isOpen && fd in os.live
      modifies os`script, os`now, os`last
      ensures old(os.Sound()) ==> os.Sound()
      ensures os.now >= old(os.now)
      ensures |os.script| <= |old(os.script)|
    {
      var ret :- os.Control(fd);
      return if ret.n == -1 then Throw(IoFault) else Ok(());
    }

    /** The whole milliseconds left until `expiry`, or nothing positive. */
    static ghost predicate IsLeft(left: int, expiry: Timespec, now: int) {
      if left > 0 then left < UINT32_LIMIT && Nanos(expiry) - now < (left + 1) * NANOS_PER_MS
      else Nanos(expiry) - now < NANOS_PER_MS
    }

    /** Milliseconds left on a timer, by the monotonic clock. */
    method TimeLeft(expiry: Timespec) returns (left: int)
      ensures left > 0 <==> Nanos(expiry) - os.now >= NANOS_PER_MS
      ensures Nanos(expiry) - os.now < UINT32_LIMIT * NANOS_PER_MS ==> IsLeft(left, expiry, os.now)
    {
      left := Remaining(expiry, ClockReading(os.now));
      RemainingExact(expiry, ClockReading(os.now));
    }

    method BeginTimer(budget: int) returns (expiry: Timespec)
      ensures Nanos(expiry) == os.now + ToUint32(budget) * NANOS_PER_MS
    {
      expiry := StartTimer(ClockReading(os.now), ToUint32(budget));
    }

    /** One turn of the read loop: wait for data, then take what is there.
        A turn that finds the port not readable takes nothing. */
    method ReadPiece(buf: array<char>, at: nat, want: nat, millis: nat, fixedLength: bool)
      returns (r: Result<nat>, ghost piece: string)
      requires isOpen && fd in os.live
      requires at + want <= buf.Length
      modifies buf, os`script, os`now, os`last, os`incoming, os`delivered
      ensures old(os.Sound()) ==> os.Sound()
      ensures os.now >= old(os.now)
      ensures |os.script| <= |old(os.script)|
      ensures r.Ok? ==> |os.script| < |old(os.script)|
      ensures old(os.incoming) == piece + os.incoming
      ensures os.delivered == old(os.delivered) + piece
      ensures |piece| <= want && buf[..] == Splice(old(buf[..]), at, piece)
      ensures r.Ok? ==> r.value == |piece|
      ensures Ready(old(os.script)) && !fixedLength ==>
                && |piece| == Min(old(os.script)[1].ret, Min(want, |old(os.incoming)|))
                && (want > 0 && old(os.incoming) != [] ==> piece != [] && r.Ok? && os.script == old(os.script)[2..])
    {
      piece := [];
      var readable :- WaitReadable(millis);
      if !readable {
        return Ok(0), [];
      }
      if fixedLength && timeout.interByte == TIMEOUT_MAX {
        var _ :- WaitForRest();
      }
      var ret, data := os.Read(fd, want);
      if ret.Cut? {
        return Cut, [];
      }
      if ret.value.n < 1 {
        return Throw(SerialFault), [];
      }
      Store(buf, at, data);
      return Ok(ret.value.n), data;
    }

    /** Reads up to `size` bytes into `buf` from `start`.  What is stored, also
        when an exception is on its way out, is the exact in-order beginning of
        what the device had for us; a normal return with fewer bytes happens only
        with less than one millisecond of the time budget left. */
    method Read(buf: array<char>, start: nat, size: nat) returns (r: Result<nat>, ghost got: string)
      requires Valid()
      requires start + size <= buf.Length
      modifies buf, os`script, os`now, os`last, os`incoming, os`delivered
      ensures Valid()
      ensures |os.script| <= |old(os.script)| && os.now >= old(os.now)
      ensures old(os.incoming) == got + os.incoming
      ensures os.delivered == old(os.delivered) + got
      ensures |got| <= size && buf[..] == Splice(old(buf[..]), start, got)
      ensures !isOpen ==> r == Throw(PortNotOpened) && got == []
      ensures r.Ok? ==> r.value == |got| && |os.script| < |old(os.script)|
      ensures r.Ok? && |got| < size ==>
                os.now - old(os.now) > (ReadBudget(timeout, size) - 1) * NANOS_PER_MS
      ensures isOpen && size == 1 && old(os.incoming) != [] && Yields(old(os.script), ReadBudget(timeout, 1)) ==>
                r == Ok(1) && os.script == old(os.script)[Used(old(os.script))..]
    {
      got := [];
      if !isOpen {
        return Throw(PortNotOpened), [];
      }
      var expiry := BeginTimer(timeout.readConstant + timeout.readMultiplier * size);

      hide Splice, Os.Sound, Nanos;
      // take what is already there; a failing first read is ignored
      var first, chunk := os.Read(fd, size);
      if first.Cut? {
        return Cut, [];
      }
      Store(buf, start, chunk);
      ghost var rest;
      r, rest := ReadRest(buf, start, |chunk|, size, expiry);
      SpliceTwice(old(buf[..]), start, chunk, rest);
      got := chunk + rest;
    }

    /** The loop of `read`, with `have` of the `size` bytes already there. */
    method ReadRest(buf: array<char>, start: nat, have: nat, size: nat, expiry: Timespec)
      returns (r: Result<nat>, ghost rest: string)
      requires isOpen && fd in os.live
      requires have <= size && start + size <= buf.Length
      modifies buf, os`script, os`now, os`last, os`incoming, os`delivered
      ensures old(os.Sound()) ==> os.Sound()
      ensures |os.script| <= |old(os.script)| && os.now >= old(os.now)
      ensures old(os.incoming) == rest + os.incoming
      ensures os.delivered == old(os.delivered) + rest
      ensures have + |rest| <= size && buf[..] == Splice(old(buf[..]), start + have, rest)
      ensures r.Ok? ==> r.value == have + |rest|
      ensures r.Ok? && r.value < size ==> Nanos(expiry) - os.now < NANOS_PER_MS
      ensures have == size ==> r.Ok? && os.script == old(os.script)
      ensures have == 0 && size == 1 && Nanos(expiry) - old(os.now) >= NANOS_PER_MS
              && Ready(old(os.script)) && old(os.incoming) != [] ==>
                r == Ok(1) && os.script == old(os.script)[2..]
    {
      rest := [];
      var bytesRead := have;
      assert buf[..] == Splice(old(buf[..]), start + have, []);
      ghost var served := have == 0 && size == 1 && Nanos(expiry) - os.now >= NANOS_PER_MS
                          && Ready(os.script) && os.incoming != [];
      hide Splice, Os.Sound, IsLeft, Ready, Nanos;
      while bytesRead < size
        invariant old(os.Sound()) ==> os.Sound()
        invariant have == size ==> os.script == old(os.script)
        invariant served && bytesRead == 0 ==> os.script == old(os.script) && os.now == old(os.now)
        invariant served && bytesRead > 0 ==> os.script == old(os.script)[2..]
        invariant bytesRead == have + |rest| <= size
        invariant old(os.incoming) == rest + os.incoming
        invariant os.delivered == old(os.delivered) + rest
        invariant buf[..] == Splice(old(buf[..]), start + have, rest)
        invariant |os.script| <= |old(os.script)| && os.now >= old(os.now)
        decreases |os.script|
      {
        var left := TimeLeft(expiry);
        if left <= 0 {
          break;
        }
        var wait := Min(ToUint32(left), timeout.interByte);
        ghost var piece;
        r, piece := ReadPiece(buf, start + bytesRead, size - bytesRead, wait, size > 1);
        SpliceTwice(old(buf[..]), start + have, rest, piece);
        Associate(rest, piece, os.incoming);
        Associate(old(os.delivered), rest, piece);
        rest := rest + piece;
        if !r.Ok? {
          return;
        }
        bytesRead := bytesRead + r.value;
      }
      return Ok(bytesRead), rest;
    }

    /** The kernel's copy into the caller's buffer. */
    static method Store(buf: array<char>, at: nat, data: string)
      requires at + |data| <= buf.Length
      modifies buf
      ensures buf[..] == Splice(old(buf[..]), at, data)
    {
      forall k | 0 <= k < |data| {
        buf[at + k] := data[k];
      }
    }

    /** How a turn of the write loop ends, case by case: by the answer to the wait
        and, if the port is ready, by the answer to the write. */
    static predicate WriteTurn(script: seq<Answer>, r: Result<Option<nat>>, k: nat) {
      if script == [] then r == Cut
      else if script[0].ret < 0 then r == if script[0].eintr then Ok(Some(0)) else Throw(IoFault)
      else if script[0].ret == 0 then r == Ok(None)
      else if !script[0].listed then r == Throw(IoFault)
      else if |script| == 1 then r == Cut
      else if script[1].ret > 0 then r == Ok(Some(k)) && k > 0
      else if script[1].ret < 0 && script[1].eintr then r == Ok(Some(0))
      else r == Throw(SerialFault)
    }

    /** One turn of the write loop: wait until the port takes data, then offer
        `data`.  `Ok(None)` says that the rest of the time went by in vain,
        `Ok(Some(0))` that the turn was interrupted; when the turn throws, nothing
        was taken. */
    method WritePiece(data: string, left: int, ghost expiry: Timespec) returns (r: Result<Option<nat>>, ghost k: nat)
      requires isOpen && fd in os.live && data != []
      requires IsLeft(left, expiry, os.now)
      modifies os`script, os`now, os`last, os`accepted
      ensures r != Throw(RuntimeFault)
      ensures old(os.Sound()) ==> os.Sound()
      ensures |os.script| <= |old(os.script)|
      ensures r.Ok? ==> |os.script| < |old(os.script)|
      ensures k <= |data| && os.accepted == old(os.accepted) + data[..k]
      ensures if r.Ok? && r.value.Some? then r.value.value == k else k == 0
      ensures os.now >= old(os.now)
      ensures r == Ok(None) ==> Nanos(expiry) - os.now < NANOS_PER_MS
      ensures WriteTurn(old(os.script), r, k)
      ensures old(os.script) != [] && Fails(old(os.script)[0]) ==>
                r == Throw(IoFault) && os.script == old(os.script)[1..]
      ensures r.Ok? ==> old(os.script) != []
      ensures Prompt(old(os.script)) ==> os.now == old(os.now) && (r.Cut? || (r == Ok(Some(k)) && k > 0))
      ensures Ready(old(os.script)) ==>
                k == Min(old(os.script)[1].ret, |data|) && r == Ok(Some(k)) && os.script == old(os.script)[2..]
    {
      k := 0;
      var millis := ToUint32(left);
      TimespecFromMsExact(millis);
      assert left > 0 ==> millis == left;
      var ready, listed := os.Select(fd, Nanos(TimespecFromMs(millis)));
      if ready.Cut? {
        return Cut, 0;
      }
      if ready.value.n < 0 {
        return if ready.value.eintr then Ok(Some(0)) else Throw(IoFault), 0;
      }
      if ready.value.n == 0 {
        return Ok(None), 0;
      }
      if !listed {
        return Throw(IoFault), 0;
      }
      var took;
      took, k := os.Write(fd, data);
      if took.Cut? {
        return Cut, 0;
      }
      if took.value.n == -1 && took.value.eintr {
        return Ok(Some(0)), 0;
      }
      if took.value.n < 1 {
        return Throw(SerialFault), 0;
      }
      return Ok(Some(took.value.n)), k;
    }

    /** Hands `data` to the kernel piece by piece.  The kernel takes a prefix of
        it, the returned count is the length of that prefix, and a call that does
        not return normally took less than the whole.  A normal return with less
        than the whole happens only with less than one millisecond of the time
        budget left. */
    method Write(data: string) returns (r: Result<nat>, ghost n: nat)
      requires Valid()
      modifies os`script, os`now, os`last, os`accepted
      ensures r != Throw(RuntimeFault)
      ensures Valid()
      ensures |os.script| <= |old(os.script)| && os.now >= old(os.now)
      ensures n <= |data| && os.accepted == old(os.accepted) + data[..n]
      ensures r.Ok? ==> r.value == n
      ensures !isOpen ==> r == Throw(PortNotOpened) && n == 0
      ensures isOpen && !r.Ok? ==> n < |data|
      ensures r.Ok? && n < |data| ==>
                os.now - old(os.now) > (WriteBudget(timeout, |data|) - 1) * NANOS_PER_MS
      ensures isOpen && data != [] && old(os.script) != [] && Fails(old(os.script)[0]) ==>
                r == Throw(IoFault) && n == 0 && os.script == old(os.script)[1..]
      ensures isOpen && data != [] && Ready(old(os.script)) &&
              (WriteBudget(timeout, |data|) == 0 || old(os.script)[1].ret >= |data|) ==>
                n == Min(old(os.script)[1].ret, |data|) && r == Ok(n) && os.script == old(os.script)[2..]
      ensures isOpen && Prompt(os.tape) && WriteBudget(timeout, |data|) > 0 ==> r.Cut? || r == Ok(|data|)
    {
      n := 0;
      if !isOpen {
        return Throw(PortNotOpened), 0;
      }
      var expiry := BeginTimer(timeout.writeConstant + timeout.writeMultiplier * |data|);
      r, n := WriteAll(data, expiry);
    }

    static lemma NextPiece(taken: string, data: string, n: nat, k: nat)
      requires n + k <= |data|
      ensures taken + data[..n] + data[n..][..k] == taken + data[..n + k]
    {
      assert data[..n + k] == data[..n] + data[n..][..k];
    }

    /** The loop of `write`. */
    method WriteAll(data: string, expiry: Timespec) returns (r: Result<nat>, ghost n: nat)
      requires isOpen && fd in os.live && os.Sound()
      requires Nanos(expiry) - os.now < UINT32_LIMIT * NANOS_PER_MS
      modifies os`script, os`now, os`last, os`accepted
      ensures r != Throw(RuntimeFault)
      ensures os.Sound() && |os.script| <= |old(os.script)| && os.now >= old(os.now)
      ensures n <= |data| && os.accepted == old(os.accepted) + data[..n]
      ensures r.Ok? ==> r.value == n
      ensures !r.Ok? ==> n < |data|
      ensures r.Ok? && n < |data| ==> Nanos(expiry) - os.now < NANOS_PER_MS
      ensures data != [] && old(os.script) != [] && Fails(old(os.script)[0]) ==>
                r == Throw(IoFault) && n == 0 && os.script == old(os.script)[1..]
      ensures data != [] && Ready(old(os.script)) && (Nanos(expiry) <= old(os.now) ||
              old(os.script)[1].ret >= |data|) ==>
                n == Min(old(os.script)[1].ret, |data|) && r == Ok(n) && os.script == old(os.script)[2..]
      ensures Prompt(os.tape) && Nanos(expiry) - old(os.now) >= NANOS_PER_MS ==> r.Cut? || r == Ok(|data|)
    {
      n := 0;
      var written := 0;
      var first := true;
      ghost var once := Ready(os.script) && (Nanos(expiry) <= os.now || os.script[1].ret >= |data|);
      ghost var prompt := Prompt(os.tape) && Nanos(expiry) - os.now >= NANOS_PER_MS;
      ghost var failing := os.script != [] && Fails(os.script[0]);
      ghost var share, rest := if once then Min(os.script[1].ret, |data|) else 0, if once then os.script[2..] else [];
      hide IsLeft, Ready, Prompt, Os.Sound, WriteTurn, Nanos, Fails, Min;
      while written < |data|
        invariant written == n <= |data| && os.now >= old(os.now)
        invariant os.accepted == old(os.accepted) + data[..n]
        invariant |os.script| <= |old(os.script)|
        invariant os.Sound()
        invariant prompt ==> os.now == old(os.now)
        invariant first ==> os.script == old(os.script) && n == 0
        invariant !first ==> !failing
        invariant once && !first ==> n == share && os.script == rest
        decreases |os.script|
      {
        var left := TimeLeft(expiry);
        if !first && left <= 0 {
          break;
        }
        first := false;
        if prompt {
          os.PromptStill();
        }
        ghost var k;
        var took;
        took, k := WritePiece(data[written..], left, expiry);
        NextPiece(old(os.accepted), data, n, k);
        if !took.Ok? {
          return took.PropagateFailure(), n;
        }
        if took.value.None? {
          break;
        }
        written, n := written + took.value.value, n + k;
      }
      return Ok(written), n;
    }
  }
}
