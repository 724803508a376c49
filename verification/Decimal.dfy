/** Decimal text: what `ostream << int` prints and what `std::stol`,
    `std::stoul` read back. */
module Decimal {
  import opened Outcome
  import opened Text

  const INT32_LIMIT: int := 0x8000_0000
  const UINT32_LIMIT: int := 0x1_0000_0000
  const INT64_LIMIT: int := 0x8000_0000_0000_0000
  const UINT64_LIMIT: int := 0x1_0000_0000_0000_0000

  predicate IsInt32(x: int) {
    -INT32_LIMIT <= x < INT32_LIMIT
  }

  /** Narrowing to `int32_t`. */
  function ToInt32(x: int): (r: int)
    ensures IsInt32(r) && (r - x) % UINT32_LIMIT == 0
  {
    (x + INT32_LIMIT) % UINT32_LIMIT - INT32_LIMIT
  }

  // -------------------------------------------------------------------------
  // Printing
  // -------------------------------------------------------------------------

  predicate IsDigit(c: char) {
    '0' <= c <= '9'
  }

  predicate AllDigits(s: string) {
    forall i :: 0 <= i < |s| ==> IsDigit(s[i])
  }

  function Digit(d: nat): (c: char)
    requires d < 10
    ensures IsDigit(c) && DigitValue(c) == d
  {
    ('0' as int + d) as char
  }

  function DigitValue(c: char): (d: nat) {
    if IsDigit(c) then c as int - '0' as int else 0
  }

  function Dec(n: nat): (s: string)
    ensures |s| > 0
  {
    if n < 10 then [Digit(n)] else Dec(n / 10) + [Digit(n % 10)]
  }

  function DecInt(x: int): (s: string) {
    if x < 0 then "-" + Dec(-x) else Dec(x)
  }

  /** `setfill('0') << setw(3)`. */
  function Pad3(n: nat): string {
    var s := Dec(n);
    if |s| == 1 then "00" + s else if |s| == 2 then "0" + s else s
  }

  // -------------------------------------------------------------------------
  // Reading
  // -------------------------------------------------------------------------

  /** The number a digit string denotes. */
  function Value(s: string): nat {
    if s == [] then 0 else 10 * Value(s[..|s| - 1]) + DigitValue(s[|s| - 1])
  }

  function DigitRun(s: string): (k: nat)
    ensures k <= |s|
  {
    if s == [] || !IsDigit(s[0]) then 0 else 1 + DigitRun(s[1..])
  }

  predicate Signed(s: string) {
    s != [] && (s[0] == '-' || s[0] == '+')
  }

  /** Sign and magnitude as `strtol` sees them; no digits is `invalid_argument`. */
  function SignMagnitude(s: string): (r: Result<(bool, nat)>) {
    var t := LTrim(s);
    var u := if Signed(t) then t[1..] else t;
    var k := DigitRun(u);
    if k == 0 then Throw(InvalidArgument) else Ok((Signed(t) && t[0] == '-', Value(u[..k])))
  }

  function StoL(s: string): (r: Result<int>)
    ensures r.Ok? ==> -INT64_LIMIT <= r.value < INT64_LIMIT
  {
    var sm :- SignMagnitude(s);
    var v: int := if sm.0 then 0 - sm.1 else sm.1;
    if -INT64_LIMIT <= v < INT64_LIMIT then Ok(v) else Throw(OutOfRange)
  }

  function StoUL(s: string): (r: Result<nat>)
    ensures r.Ok? ==> r.value < UINT64_LIMIT
  {
    var sm :- SignMagnitude(s);
    if sm.1 >= UINT64_LIMIT then Throw(OutOfRange)
    else Ok(if sm.0 then (UINT64_LIMIT - sm.1) % UINT64_LIMIT else sm.1)
  }

  // -------------------------------------------------------------------------
  // Reading inverts printing
  // -------------------------------------------------------------------------

  lemma {:induction false} DecValue(n: nat)
    ensures AllDigits(Dec(n)) && Value(Dec(n)) == n
  {
    if n < 10 {
      assert Dec(n)[..0] == [];
    } else {
      DecValue(n / 10);
      assert Dec(n)[..|Dec(n)| - 1] == Dec(n / 10);
    }
  }

  lemma DigitsHoldNo(n: nat, c: char)
    requires !IsDigit(c)
    ensures c !in Dec(n)
  {
    DecValue(n);
  }

  lemma DecIntHoldsNo(x: int, c: char)
    requires !IsDigit(c) && c != '-'
    ensures c !in DecInt(x)
  {
    DigitsHoldNo(if x < 0 then -x else x, c);
  }

  lemma {:induction false} AllDigitRun(s: string)
    requires AllDigits(s)
    ensures DigitRun(s) == |s|
  {
    if s != [] {
      AllDigitRun(s[1..]);
    }
  }

  /** A digit string, with or without a minus sign, is read as its value. */
  lemma ReadDigits(s: string, negative: bool)
    requires s != [] && AllDigits(s)
    ensures SignMagnitude(if negative then "-" + s else s) == Ok((negative, Value(s)))
  {
    AllDigitRun(s);
    assert s[..|s|] == s;
    if negative {
      var t := "-" + s;
      assert t[0] == '-' && LTrim(t) == t && t[1..] == s;
    } else {
      assert IsDigit(s[0]) && LTrim(s) == s && !Signed(s);
    }
  }

  /** `std::stol` recovers every 64-bit integer from its printed form. */
  lemma StoLInvertsPrint(x: int)
    requires -INT64_LIMIT <= x < INT64_LIMIT
    ensures StoL(DecInt(x)) == Ok(x)
  {
    var n := if x < 0 then -x else x;
    DecValue(n);
    ReadDigits(Dec(n), x < 0);
  }

  lemma StoULInvertsPrint(n: nat)
    requires n < UINT64_LIMIT
    ensures StoUL(Dec(n)) == Ok(n)
  {
    DecValue(n);
    ReadDigits(Dec(n), false);
  }

  /** Cutting a printed number short always changes its value. */
  lemma {:induction false} CutDecimalIsSmaller(n: nat, j: nat)
    requires 0 < j < |Dec(n)|
    ensures AllDigits(Dec(n)[..j]) && Value(Dec(n)[..j]) < n
  {
    DecValue(n);
    var short := Dec(n / 10);
    assert Dec(n) == short + [Digit(n % 10)];
    DecValue(n / 10);
    if j < |short| {
      CutDecimalIsSmaller(n / 10, j);
      assert Dec(n)[..j] == short[..j];
    } else {
      assert Dec(n)[..j] == short;
    }
  }

  lemma Pad3Value(n: nat)
    requires n <= 999
    ensures |Pad3(n)| == 3 && AllDigits(Pad3(n)) && Value(Pad3(n)) == n
  {
    DecValue(n);
    var s := Dec(n);
    assert |s| <= 3 by {
      assert n >= 10 ==> Dec(n) == Dec(n / 10) + [Digit(n % 10)];
      assert n >= 100 ==> Dec(n / 10) == Dec(n / 10 / 10) + [Digit(n / 10 % 10)];
    }
    LeadingZero(s);
    LeadingZero("0" + s);
    assert "00" + s == "0" + ("0" + s);
  }

  lemma {:induction false} LeadingZero(s: string)
    requires AllDigits(s)
    ensures AllDigits("0" + s) && Value("0" + s) == Value(s)
  {
    var z := "0" + s;
    if s == [] {
      assert z[..0] == [];
    } else {
      LeadingZero(s[..|s| - 1]);
      assert z[..|z| - 1] == "0" + s[..|s| - 1];
    }
  }
}
