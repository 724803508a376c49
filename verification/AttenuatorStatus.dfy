/** The attenuator's settings reply (`pc`): 24 fields, each closed by ";". */
module AttenuatorStatus {
  import opened Outcome
  import opened Text
  import opened Decimal
  import opened Lines
  import opened DeviceLine
  import opened AttenuatorWire

  const STATUS_FIELDS: nat := 24

  datatype Settings = Settings(
    opMode: int, motorState: int, acceleration: nat, deceleration: nat, maxSpeed: nat,
    currentMove: nat, currentIdle: nat, resolution: nat,
    motorEnabled: bool, resetOnZero: bool, reportOnZero: bool)

  function Token(tokens: seq<string>, i: nat): Result<string> {
    if i < |tokens| then Ok(tokens[i]) else Throw(OutOfRange)
  }

  function SignedField(tokens: seq<string>, i: nat): Result<int> {
    var t :- Token(tokens, i);
    StoL(t)
  }

  function UnsignedField(tokens: seq<string>, i: nat): Result<nat> {
    var t :- Token(tokens, i);
    StoUL(t)
  }

  /** `& 0xFF`. */
  function Low8(n: nat): nat {
    n % 0x100
  }

  /** Mode, state and ramps; then speed and currents; then the rest: the order in
      which the driver reads them. */
  function Ramps(tokens: seq<string>): Result<(int, int, nat, nat)> {
    var mode :- SignedField(tokens, 0);
    var state :- SignedField(tokens, 1);
    var acc :- UnsignedField(tokens, 2);
    var dec :- UnsignedField(tokens, 3);
    Ok((mode, state, Low8(acc), Low8(dec)))
  }

  function Currents(tokens: seq<string>): Result<(nat, nat, nat)> {
    var speed :- UnsignedField(tokens, 4);
    var move :- UnsignedField(tokens, 5);
    var idle :- UnsignedField(tokens, 6);
    Ok((speed % UINT32_LIMIT, Low8(move), Low8(idle)))
  }

  function Switches(tokens: seq<string>): Result<(nat, bool, bool, bool)> {
    var res :- UnsignedField(tokens, 8);
    var enabled :- SignedField(tokens, 9);
    var reset :- SignedField(tokens, 11);
    var report :- SignedField(tokens, 12);
    Ok((res, enabled != 0, reset != 0, report != 0))
  }

  /** The settings in the tokens of a reply. */
  function StatusOf(tokens: seq<string>): Result<Settings> {
    var r :- Ramps(tokens);
    var c :- Currents(tokens);
    var s :- Switches(tokens);
    Ok(Settings(r.0, r.1, r.2, r.3, c.0, c.1, c.2, s.0, s.1, s.2, s.3))
  }

  function StatusTokens(answer: string): Result<seq<string>> {
    if |answer| < 2 then Throw(OutOfRange) else Ok(Tokens(answer[2..], ";"))
  }

  // -------------------------------------------------------------------------
  // The device's side
  // -------------------------------------------------------------------------

  function Printed(fields: seq<nat>): (ts: seq<string>)
    ensures |ts| == |fields|
  {
    if fields == [] then [] else [Dec(fields[0])] + Printed(fields[1..])
  }

  function StatusText(fields: seq<nat>): string {
    if fields == [] then "" else Dec(fields[0]) + ";" + StatusText(fields[1..])
  }

  function EncodeStatus(fields: seq<nat>): string {
    "pc" + StatusText(fields) + EOL
  }

  /** Values the driver can store: currents and ramps in a byte, the speed in 32 bits. */
  predicate InRange(fields: seq<nat>) {
    && |fields| == STATUS_FIELDS
    && (forall i :: 0 <= i < |fields| ==> fields[i] < INT64_LIMIT)
    && fields[2] <= 0xFF && fields[3] <= 0xFF && fields[5] <= 0xFF && fields[6] <= 0xFF
    && fields[4] < UINT32_LIMIT
  }

  function Stored(f: seq<nat>): Settings
    requires |f| == STATUS_FIELDS
  {
    Settings(f[0], f[1], f[2], f[3], f[4], f[5], f[6], f[8], f[9] != 0, f[11] != 0, f[12] != 0)
  }

  // -------------------------------------------------------------------------
  // Round trip
  // -------------------------------------------------------------------------

  lemma {:induction false} PrintedAt(fields: seq<nat>, i: nat)
    requires i < |fields|
    ensures Printed(fields)[i] == Dec(fields[i])
  {
    if i > 0 {
      PrintedAt(fields[1..], i - 1);
    }
  }

  /** Closing every field with ";" is joining them and an empty last one. */
  lemma {:induction false} TextIsJoin(fields: seq<nat>)
    ensures Join(Printed(fields) + [""], ";") == StatusText(fields)
  {
    var ts := Printed(fields) + [""];
    if fields == [] {
      assert ts == [""];
    } else {
      TextIsJoin(fields[1..]);
      assert ts[1..] == Printed(fields[1..]) + [""];
    }
  }

  lemma PrintedHoldsNo(fields: seq<nat>, c: char)
    requires !IsDigit(c)
    ensures forall t <- Printed(fields) :: c !in t
  {
    forall i | 0 <= i < |fields|
      ensures c !in Printed(fields)[i]
    {
      PrintedAt(fields, i);
      DigitsHoldNo(fields[i], c);
    }
  }

  lemma TokensOfText(fields: seq<nat>)
    ensures Tokens(StatusText(fields), ";") == Printed(fields) + [""]
  {
    hide *;
    TextIsJoin(fields);
    PrintedHoldsNo(fields, ';') by {
      assert !IsDigit(';') by { SemicolonIsNoDigit(); }
    }
    var ts := Printed(fields) + [""];
    assert forall t <- ts :: ';' !in t;
    TokensInvertJoin(ts, ';');
  }

  lemma SemicolonIsNoDigit()
    ensures !IsDigit(';') && !IsDigit('\r')
  {
  }

  lemma FieldReads(fields: seq<nat>, tail: seq<string>, i: nat)
    requires i < |fields| && fields[i] < INT64_LIMIT
    ensures SignedField(Printed(fields) + tail, i) == Ok(fields[i])
    ensures UnsignedField(Printed(fields) + tail, i) == Ok(fields[i])
  {
    PrintedAt(fields, i);
    StoLInvertsPrint(fields[i]);
    StoULInvertsPrint(fields[i]);
    hide StoL, StoUL, Dec, Printed;
    assert (Printed(fields) + tail)[i] == Printed(fields)[i];
    assert DecInt(fields[i]) == Dec(fields[i]);
  }

  lemma RampsRead(f: seq<nat>, tail: seq<string>)
    requires InRange(f)
    ensures Ramps(Printed(f) + tail) == Ok((f[0], f[1], f[2], f[3]))
  {
    assert Low8(f[2]) == f[2] && Low8(f[3]) == f[3];
    hide SignedField, UnsignedField, Printed, Low8;
    FieldReads(f, tail, 0);
    FieldReads(f, tail, 1);
    FieldReads(f, tail, 2);
    FieldReads(f, tail, 3);
  }

  lemma CurrentsRead(f: seq<nat>, tail: seq<string>)
    requires InRange(f)
    ensures Currents(Printed(f) + tail) == Ok((f[4], f[5], f[6]))
  {
    assert Low8(f[5]) == f[5] && Low8(f[6]) == f[6];
    hide SignedField, UnsignedField, Printed, Low8;
    FieldReads(f, tail, 4);
    FieldReads(f, tail, 5);
    FieldReads(f, tail, 6);
  }

  lemma SwitchesRead(f: seq<nat>, tail: seq<string>)
    requires InRange(f)
    ensures Switches(Printed(f) + tail) == Ok((f[8], f[9] != 0, f[11] != 0, f[12] != 0))
  {
    hide SignedField, UnsignedField, Printed;
    FieldReads(f, tail, 8);
    FieldReads(f, tail, 9);
    FieldReads(f, tail, 11);
    FieldReads(f, tail, 12);
  }

  /** Every setting the driver stores is recovered from the tokens of a reply. */
  lemma StatusReads(fields: seq<nat>, tail: seq<string>)
    requires InRange(fields)
    ensures StatusOf(Printed(fields) + tail) == Ok(Stored(fields))
  {
    RampsRead(fields, tail);
    CurrentsRead(fields, tail);
    SwitchesRead(fields, tail);
    hide Ramps, Currents, Switches, Printed;
  }

  lemma {:induction false} TextLength(fields: seq<nat>)
    requires forall i :: 0 <= i < |fields| ==> fields[i] < INT64_LIMIT
    ensures |StatusText(fields)| <= 20 * |fields|
    ensures '\r' !in StatusText(fields)
  {
    if fields != [] {
      TextLength(fields[1..]);
      INT64Digits();
      DecLength(fields[0], 19);
      DigitsHoldNo(fields[0], '\r');
    }
  }

  lemma INT64Digits()
    ensures INT64_LIMIT < Pow10(19)
  {
    assert Pow10(5) == 100_000;
    assert Pow10(10) == 10 * (10 * (10 * (10 * (10 * Pow10(5)))));
    assert Pow10(15) == 10 * (10 * (10 * (10 * (10 * Pow10(10)))));
    assert Pow10(19) == 10 * (10 * (10 * (10 * Pow10(15))));
  }

  /** Over the wire: when the stream begins with a settings reply and the read was
      not cut off, the driver stores exactly the settings sent. */
  lemma StatusRoundTrip(stream: string, heard: string, fields: seq<nat>, rest: string)
    requires InRange(fields) && stream == EncodeStatus(fields) + rest
    requires heard <= stream
    requires RunsThrough(heard, MAX_LINE, EOL) && StopsAt(heard, |heard|, MAX_LINE, EOL)
    ensures |heard| >= 2
    ensures var tokens := StatusTokens(heard[..|heard| - 2]);
      tokens.Ok? && StatusOf(tokens.value) == Ok(Stored(fields))
  {
    var text := StatusText(fields);
    var body := "pc" + text;
    assert InRange(fields) ==> |fields| == STATUS_FIELDS;
    TextLength(fields);
    assert stream == body + EOL + rest;
    assert '\r' !in body;
    hide EncodeStatus, StatusText, InRange, StatusOf, RunsThrough, StopsAt, LineLength, Tokens;
    StoppedRunIsLine(stream, heard, MAX_LINE, EOL);
    FirstLineIsBody(body, rest, MAX_LINE);
    assert heard == body + EOL by {
      assert stream[..|heard|] == heard;
      assert (body + EOL + rest)[..|body| + 2] == body + EOL;
    }
    assert heard[..|heard| - 2] == body && body[2..] == text;
    TokensOfText(fields);
    StatusReads(fields, [""]);
  }

  /** The stream begins with this settings reply. */
  ghost predicate StatusSent(stream: string, fields: seq<nat>, rest: string) {
    stream == EncodeStatus(fields) + rest
  }
}
