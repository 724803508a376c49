/** The operating system and the wire, seen through the system calls the serial
    library makes on one port.

    Every system call takes the next answer of a script.  A script fixes how many
    bytes a call moves, whether it fails, whether it was interrupted and how long
    it took; answers are clipped to what a kernel can do (never more bytes than
    asked for or than there are, never a descriptor that is already in use).
    Results are proved for every script, hence for every behaviour of the kernel
    and the device.  A call that finds the script empty is `Cut`. */
module Kernel {
  import opened Outcome

  datatype Answer = Answer(ret: int, eintr: bool, listed: bool, pause: nat)

  /** The call fails, and not because a signal came in between. */
  predicate Fails(a: Answer) {
    a.ret < 0 && !a.eintr
  }

  /** The two flushes in front of a message go through, and the wait for the port
      to take the message fails. */
  predicate RefusesMessage(script: seq<Answer>) {
    |script| >= 3 && Fails(script[2])
  }

  /** The port is ready, and the transfer that follows moves something. */
  predicate Ready(script: seq<Answer>) {
    |script| >= 2 && script[0].ret > 0 && script[0].listed && script[1].ret > 0
  }

  /** The two flushes in front of a message go through, and some of it is taken. */
  predicate TakesMessage(script: seq<Answer>) {
    |script| >= 4 && Ready(script[2..])
  }

  /** How much of a message of that length. */
  function Taken(script: seq<Answer>, length: nat): nat
    requires TakesMessage(script)
  {
    Min(script[3].ret, length)
  }

  /** Every wait finds the port ready at once, and every transfer moves something. */
  predicate Prompt(script: seq<Answer>) {
    forall i :: 0 <= i < |script| ==> script[i].ret > 0 && script[i].listed && script[i].pause == 0
  }

  /** What a system call hands back: its return value and whether `errno` is EINTR. */
  datatype SysRet = SysRet(n: int, eintr: bool)

  class Os {
    var script: seq<Answer>
    var now: nat              // CLOCK_MONOTONIC, in nanoseconds
    var incoming: string      // bytes the device has for us, not yet read or flushed
    var live: set<int>        // descriptors opened and not successfully closed
    ghost const tape: seq<Answer>   // the whole script, as it was at the start
    ghost var accepted: string   // bytes taken by write(), in order
    ghost var delivered: string  // bytes returned by read(), in order
    ghost var opens: nat         // calls of open() so far
    ghost var flushes: nat       // input flushes so far
    ghost var last: SysRet       // what the last system call returned

    constructor (script: seq<Answer>, incoming: string)
      ensures this.script == script && this.incoming == incoming
      ensures live == {} && accepted == [] && delivered == [] && opens == 0
      ensures tape == script && Sound()
    {
      tape := script;
      this.script, this.incoming, now, live := script, incoming, 0, {};
      accepted, delivered, opens, flushes, last := [], [], 0, 0, SysRet(0, false);
    }

    /** The script is what is left of the tape. */
    ghost predicate Sound()
      reads this
    {
      |script| <= |tape| && script == tape[|tape| - |script|..]
    }

    lemma PromptStill()
      requires Sound() && Prompt(tape)
      ensures Prompt(script)
    {
      assert forall i :: 0 <= i < |script| ==> script[i] == tape[|tape| - |script| + i];
    }

    method Next() returns (r: Result<Answer>)
      modifies this`script, this`now, this`last
      ensures now >= old(now)
      ensures old(Sound()) ==> Sound()
      ensures now == old(now) + if old(script) == [] then 0 else old(script)[0].pause
      ensures r.Ok? <==> old(script) != []
      ensures r.Ok? ==> r.value == old(script)[0] && last == SysRet(r.value.ret, r.value.eintr)
      ensures if old(script) == [] then r.Cut? && script == [] else r.Ok? && script == old(script)[1..]
    {
      if script == [] {
        return Cut;
      }
      var a := script[0];
      script, now := script[1..], now + a.pause;
      last := SysRet(a.ret, a.eintr);
      return Ok(a);
    }

    method Open() returns (r: Result<SysRet>)
      requires forall d <- live :: d >= 0
      modifies this`script, this`now, this`last, this`live, this`opens
      ensures now >= old(now)
      ensures old(Sound()) ==> Sound()
      ensures now == old(now) + if old(script) == [] then 0 else old(script)[0].pause
      ensures if old(script) == [] then r.Cut? && script == [] else r.Ok? && script == old(script)[1..]
      ensures r.Ok? ==> opens == old(opens) + 1 && last == r.value
      ensures r.Cut? ==> live == old(live) && opens == old(opens)
      ensures r.Ok? && r.value.n == -1 ==> live == old(live)
      ensures r.Ok? && old(script)[0].ret >= 0 && old(script)[0].ret !in old(live) ==> r.value.n == old(script)[0].ret
      ensures r.Ok? && r.value.n != -1 ==>
                r.value.n >= 0 && r.value.n !in old(live) && live == old(live) + {r.value.n}
    {
      var a :- Next();
      opens := opens + 1;
      if a.ret < 0 || a.ret in live {
        last := SysRet(-1, a.eintr);
        return Ok(SysRet(-1, a.eintr));
      }
      live := live + {a.ret};
      last := SysRet(a.ret, false);
      return Ok(SysRet(a.ret, false));
    }

    method Close(fd: int) returns (r: Result<SysRet>)
      requires fd in live
      modifies this`script, this`now, this`last, this`live
      ensures now >= old(now)
      ensures old(Sound()) ==> Sound()
      ensures now == old(now) + if old(script) == [] then 0 else old(script)[0].pause
      ensures if old(script) == [] then r.Cut? && script == [] else r.Ok? && script == old(script)[1..]
      ensures r.Ok? ==> last == r.value
      ensures r.Ok? && r.value.n == 0 ==> live == old(live) - {fd}
      ensures r.Cut? || r.value.n != 0 ==> live == old(live)
      ensures r.Ok? ==> r.value.n == old(script)[0].ret
    {
      var a :- Next();
      if a.ret == 0 {
        live := live - {fd};
      }
      return Ok(SysRet(a.ret, a.eintr));
    }

    /** tcgetattr/tcsetattr/ioctl on a descriptor: only success or failure matters. */
    method Control(fd: int) returns (r: Result<SysRet>)
      requires fd in live
      modifies this`script, this`now, this`last
      ensures now >= old(now)
      ensures old(Sound()) ==> Sound()
      ensures now == old(now) + if old(script) == [] then 0 else old(script)[0].pause
      ensures if old(script) == [] then r.Cut? && script == [] else r.Ok? && script == old(script)[1..]
      ensures r.Ok? ==> r.value.n == old(script)[0].ret
      ensures r.Ok? ==> last == r.value
    {
      var a :- Next();
      return Ok(SysRet(a.ret, a.eintr));
    }

    /** pselect on one descriptor; `listed` is FD_ISSET afterwards.  It reports a
        timeout only when it has waited for as long as it was told to. */
    method Select(fd: int, patience: nat) returns (r: Result<SysRet>, listed: bool)
      requires fd in live
      modifies this`script, this`now, this`last
      ensures now >= old(now)
      ensures old(Sound()) ==> Sound()
      ensures old(script) == [] ==> now == old(now)
      ensures old(script) != [] && old(script)[0].ret != 0 ==> now == old(now) + old(script)[0].pause
      ensures if old(script) == [] then r.Cut? && script == [] else r.Ok? && script == old(script)[1..]
      ensures r.Ok? ==> last == r.value == SysRet(old(script)[0].ret, old(script)[0].eintr)
      ensures r.Ok? && r.value.n == 0 ==> now >= old(now) + patience
      ensures r.Ok? ==> listed == old(script)[0].listed
    {
      listed := false;
      var until := now + patience;
      var a :- Next();
      if a.ret == 0 && now < until {
        now := until;
      }
      listed := a.listed;
      return Ok(SysRet(a.ret, a.eintr)), listed;
    }

    /** read(2): any prefix, possibly empty, of what is there and was asked for. */
    method Read(fd: int, size: nat) returns (r: Result<SysRet>, data: string)
      requires fd in live
      modifies this`script, this`now, this`last, this`incoming, this`delivered
      ensures now >= old(now)
      ensures old(Sound()) ==> Sound()
      ensures now == old(now) + if old(script) == [] then 0 else old(script)[0].pause
      ensures if old(script) == [] then r.Cut? && script == [] else r.Ok? && script == old(script)[1..]
      ensures |data| <= size
      ensures r.Ok? ==> (if r.value.n > 0 then |data| == r.value.n else data == [])
      ensures r.Cut? ==> data == []
      ensures old(incoming) == data + incoming
      ensures delivered == old(delivered) + data
      ensures r.Ok? && old(script)[0].ret > 0 ==>
                r.value.n == |data| == Min(old(script)[0].ret, Min(size, |old(incoming)|))
      ensures r.Ok? && old(script)[0].ret <= 0 ==> data == []
    {
      data := [];
      var a :- Next();
      if a.ret < 0 {
        return Ok(SysRet(-1, a.eintr)), [];
      }
      var n := Min(a.ret, Min(size, |incoming|));
      data := incoming[..n];
      incoming := incoming[n..];
      delivered := delivered + data;
      return Ok(SysRet(n, false)), data;
    }

    /** write(2): any prefix, possibly empty, of the data offered. */
    method Write(fd: int, data: string) returns (r: Result<SysRet>, ghost n: nat)
      requires fd in live
      modifies this`script, this`now, this`last, this`accepted
      ensures now >= old(now)
      ensures old(Sound()) ==> Sound()
      ensures now == old(now) + if old(script) == [] then 0 else old(script)[0].pause
      ensures if old(script) == [] then r.Cut? && script == [] else r.Ok? && script == old(script)[1..]
      ensures n <= |data| && accepted == old(accepted) + data[..n]
      ensures r.Ok? ==> (if r.value.n > 0 then r.value.n == n else n == 0)
      ensures r.Cut? ==> n == 0
      ensures r.Ok? && old(script)[0].ret >= 0 ==> r.value == SysRet(n, false) && n == Min(old(script)[0].ret, |data|)
      ensures r.Ok? && old(script)[0].ret < 0 ==> r.value == SysRet(-1, old(script)[0].eintr)
    {
      n := 0;
      var a :- Next();
      if a.ret < 0 {
        return Ok(SysRet(-1, a.eintr)), 0;
      }
      var k := Min(a.ret, |data|);
      accepted := accepted + data[..k];
      return Ok(SysRet(k, false)), k;
    }

    /** tcflush(TCIFLUSH): whatever had arrived is dropped. */
    method FlushInput(fd: int) returns (r: Result<()>)
      requires fd in live
      modifies this`script, this`now, this`last, this`incoming, this`flushes
      ensures now >= old(now)
      ensures old(Sound()) ==> Sound()
      ensures now == old(now) + if old(script) == [] then 0 else old(script)[0].pause
      ensures if old(script) == [] then r.Cut? && script == [] else r.Ok? && script == old(script)[1..]
      ensures exists k: nat :: k <= |old(incoming)| && incoming == old(incoming)[k..]
      ensures r.Ok? ==> flushes == old(flushes) + 1
    {
      assert incoming == old(incoming)[0..];
      var a :- Next();
      var n := Min(if a.ret < 0 then 0 else a.ret, |incoming|);
      incoming := incoming[n..];
      flushes := flushes + 1;
      return Ok(());
    }
  }
}
