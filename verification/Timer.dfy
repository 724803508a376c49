/** The millisecond timer of the serial library.  Its double arithmetic is
    modelled over `real`: for 32-bit millisecond counts every product and sum in
    it is exactly representable or rounded on the same side of each integer. */
module Timer {
  import opened Decimal

  const NANOS_PER_SEC: int := 1_000_000_000
  const NANOS_PER_MS: int := 1_000_000

  /** C's `timespec`. */
  datatype Timespec = Timespec(sec: int, nsec: int)

  predicate Normalised(t: Timespec) {
    0 <= t.nsec < NANOS_PER_SEC
  }

  function Nanos(t: Timespec): int {
    t.sec * NANOS_PER_SEC + t.nsec
  }

  /** A reading of the monotonic clock. */
  function ClockReading(nanos: int): (t: Timespec)
    ensures Normalised(t) && Nanos(t) == nanos
  {
    Timespec(nanos / NANOS_PER_SEC, nanos % NANOS_PER_SEC)
  }

  /** Conversion of a double to an integer type: toward zero. */
  function Trunc(x: real): (n: int)
    ensures x >= 0.0 ==> n as real <= x < n as real + 1.0
    ensures x <= 0.0 ==> n as real - 1.0 < x <= n as real
  {
    if x >= 0.0 then x.Floor else -(-x).Floor
  }

  /** Integer division toward zero. */
  function TruncDiv(a: int, b: int): int
    requires b > 0
  {
    if a >= 0 then a / b else -((-a) / b)
  }

  /** Conversion of a wider integer to `uint32_t`. */
  function ToUint32(x: int): (r: int)
    ensures 0 <= r < UINT32_LIMIT
  {
    x % UINT32_LIMIT
  }

  /** Constructor of `MillisecondTimer`: the expiry is normalised and lies
      exactly `millis` milliseconds after the start. */
  method StartTimer(now: Timespec, millis: nat) returns (expiry: Timespec)
    requires Normalised(now)
    requires millis < UINT32_LIMIT
    ensures Normalised(expiry)
    ensures Nanos(expiry) == Nanos(now) + millis * NANOS_PER_MS
  {
    expiry := now;
    var nsec := expiry.nsec + millis * 1_000_000;
    if nsec >= 1_000_000_000 {
      var secDiff := nsec / 1_000_000_000;
      expiry := expiry.(nsec := nsec % 1_000_000_000);
      expiry := expiry.(sec := expiry.sec + secDiff);
    } else {
      expiry := expiry.(nsec := nsec);
    }
  }

  /** `MillisecondTimer::remaining`, in the code's own two roundings. */
  function Remaining(expiry: Timespec, now: Timespec): int {
    var millis := Trunc((expiry.sec - now.sec) as real * 1000.0);
    Trunc(millis as real + (expiry.nsec - now.nsec) as real / 1000000.0)
  }

  lemma TruncWhole(n: int)
    ensures Trunc(n as real) == n
  {
  }

  /** Two roundings in a row lose nothing: the result is the exact difference
      cut toward zero, so it is positive just when a whole millisecond is left. */
  lemma RemainingExact(expiry: Timespec, now: Timespec)
    ensures Remaining(expiry, now) == TruncDiv(Nanos(expiry) - Nanos(now), NANOS_PER_MS)
    ensures Remaining(expiry, now) > 0 <==> Nanos(expiry) - Nanos(now) >= NANOS_PER_MS
  {
    var ds, dn := expiry.sec - now.sec, expiry.nsec - now.nsec;
    assert ds as real * 1000.0 == (ds * 1000) as real;
    TruncWhole(ds * 1000);
    var d := ds * NANOS_PER_SEC + dn;
    var x := (ds * 1000) as real + dn as real / 1000000.0;
    assert x * 1000000.0 == d as real;
    TruncQuotient(x, d);
  }

  lemma TruncQuotient(x: real, d: int)
    requires x * 1000000.0 == d as real
    ensures Trunc(x) == TruncDiv(d, NANOS_PER_MS)
    ensures Trunc(x) > 0 <==> d >= NANOS_PER_MS
  {
    var n := Trunc(x);
    if d >= 0 {
      assert (n * 1000000) as real <= d as real < ((n + 1) * 1000000) as real;
    } else {
      assert ((n - 1) * 1000000) as real < d as real <= (n * 1000000) as real;
    }
  }

  /** `timespec_from_ms`. */
  function TimespecFromMs(millis: nat): (t: Timespec) {
    var sec := Trunc(millis as real / 1000.0);
    Timespec(sec, Trunc((millis as real - sec as real * 1000.0) * 1000000.0))
  }

  /** Splitting a millisecond count into a timespec is lossless. */
  lemma TimespecFromMsExact(millis: nat)
    ensures Normalised(TimespecFromMs(millis))
    ensures Nanos(TimespecFromMs(millis)) == millis * NANOS_PER_MS
  {
    var sec := Trunc(millis as real / 1000.0);
    assert (sec * 1000) as real <= millis as real < ((sec + 1) * 1000) as real;
    var left := millis - sec * 1000;
    assert (millis as real - sec as real * 1000.0) * 1000000.0 == (left * 1000000) as real;
    TruncWhole(left * 1000000);
  }
}
