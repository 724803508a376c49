/** The attenuator's language: command texts, replies to `o`, and how the driver
    reads them. */
module AttenuatorWire {
  import opened Outcome
  import opened Text
  import opened Decimal
  import opened Lines
  import opened DeviceLine

  const EOL: string := "\n\r"

  // -------------------------------------------------------------------------
  // Replies to the position query
  // -------------------------------------------------------------------------

  datatype Reply = Reply(status: int, position: int)

  function EncodeReply(status: nat, position: int): string
    requires status < 10
  {
    "o" + Dec(status) + ";" + DecInt(position) + EOL
  }

  /** `resp.substr(1)` and its tokens. */
  function Fields(answer: string): Result<seq<string>> {
    if answer == [] then Throw(OutOfRange) else Ok(Tokens(answer[1..], ";"))
  }

  /** `position = std::stol(tokens.at(1))`. */
  function PositionField(answer: string): Result<int> {
    var tokens :- Fields(answer);
    if |tokens| < 2 then Throw(OutOfRange)
    else var v :- StoL(tokens[1]); Ok(ToInt32(v))
  }

  /** The status must be one character long and a number. */
  function StatusField(answer: string): Result<nat> {
    var tokens :- Fields(answer);
    if |tokens| < 1 then Throw(OutOfRange)
    else if |tokens[0]| != 1 then Throw(RuntimeFault)
    else StoUL(tokens[0])
  }

  /** What the driver makes of the bytes of one line: the last two are dropped,
      whatever they are. */
  function Report(bytes: string): Option<Reply> {
    if |bytes| < 2 then None
    else
      var answer := bytes[..|bytes| - 2];
      var p, s := PositionField(answer), StatusField(answer);
      if p.Ok? && s.Ok? then Some(Reply(s.value, p.value)) else None
  }

  /** The fields of an answer "o" status ";" number. */
  lemma FieldsOf(first: string, second: string)
    requires ';' !in first && ';' !in second
    ensures Fields("o" + first + ";" + second) == Ok([first, second])
  {
    var answer := "o" + first + ";" + second;
    assert answer[1..] == first + ";" + second;
    var ts := [first, second];
    assert ts[1..] == [second];
    assert Join(ts, ";") == first + ";" + second;
    TokensInvertJoin(ts, ';');
  }

  lemma OneDigitStatus(s: nat)
    requires s < 10
    ensures |Dec(s)| == 1 && StoUL(Dec(s)) == Ok(s)
  {
    StoULInvertsPrint(s);
  }

  /** The driver reads back exactly what the device printed. */
  lemma ReportInvertsEncode(status: nat, position: int)
    requires status < 10 && IsInt32(position)
    ensures Report(EncodeReply(status, position)) == Some(Reply(status, position))
  {
    var first, second := Dec(status), DecInt(position);
    var answer := "o" + first + ";" + second;
    var bytes := EncodeReply(status, position);
    assert bytes == answer + EOL && bytes[..|bytes| - 2] == answer;
    hide *;
    DecIntHoldsNo(position, ';');
    DigitsHoldNo(status, ';');
    FieldsOf(first, second);
    OneDigitStatus(status);
    StoLInvertsPrint(position);
    ReportFromFields(bytes, answer, first, second, status, position);
  }

  lemma ReportFromFields(bytes: string, answer: string, first: string, second: string, s: nat, p: int)
    requires |bytes| >= 2 && bytes[..|bytes| - 2] == answer
    requires Fields(answer) == Ok([first, second])
    requires |first| == 1 && StoUL(first) == Ok(s)
    requires StoL(second) == Ok(p) && IsInt32(p)
    ensures Report(bytes) == Some(Reply(s, p))
  {
    hide Fields, StoL, StoUL;
    assert ToInt32(p) == p;
  }

  /** The stream's first line is the reply, whatever follows it. */
  lemma FirstLineIsBody(body: string, rest: string, size: nat)
    requires '\r' !in body && |body| + 2 <= size
    ensures LineLength(body + EOL + rest, 0, size, EOL) == |body| + 2
  {
    var s := body + EOL + rest;
    var n := |body| + 2;
    LineLengthIsFirstStop(s, 0, size, EOL);
    hide LineLength;
    assert s[n - 2..n] == EOL;
    assert EndsAt(s, n, EOL);
    forall m | 1 <= m < n
      ensures !EndsAt(s, m, EOL)
    {
      EndsInReturn(s, m);
      assert s[m - 1] != '\r' by {
        assert if m - 1 < |body| then s[m - 1] == body[m - 1] && body[m - 1] in body else s[m - 1] == '\n';
      }
    }
    assert StopsAt(s, n, size, EOL);
    assert forall m :: 1 <= m < n ==> !StopsAt(s, m, size, EOL);
  }

  lemma EndsInReturn(s: string, m: nat)
    ensures EndsAt(s, m, EOL) ==> 2 <= m <= |s| && s[m - 1] == '\r'
  {
    if EndsAt(s, m, EOL) {
      assert s[m - 2..m][1] == s[m - 1];
    }
  }

  function Pow10(k: nat): nat {
    if k == 0 then 1 else 10 * Pow10(k - 1)
  }

  lemma {:induction false} DecLength(n: nat, k: nat)
    requires 1 <= k && n < Pow10(k)
    ensures |Dec(n)| <= k
  {
    if n >= 10 {
      DecLength(n / 10, k - 1);
    }
  }

  lemma DecInt32Length(x: int)
    requires IsInt32(x)
    ensures |DecInt(x)| <= 11
  {
    assert Pow10(10) == 10_000_000_000 by {
      assert Pow10(5) == 100_000;
      assert Pow10(10) == 10 * (10 * (10 * (10 * (10 * Pow10(5)))));
    }
    DecLength(if x < 0 then -x else x, 10);
  }

  /** Reply round trip over the wire.  When the stream begins with the reply to
      `o` and the read was not cut off by a timeout, then however the bytes
      trickled in the driver sees exactly that status and position. */
  lemma PositionRoundTrip(stream: string, heard: string, status: nat, position: int, rest: string)
    requires status < 10 && IsInt32(position)
    requires stream == EncodeReply(status, position) + rest
    requires heard <= stream
    requires RunsThrough(heard, MAX_LINE, EOL) && StopsAt(heard, |heard|, MAX_LINE, EOL)
    ensures heard == EncodeReply(status, position)
    ensures Report(heard) == Some(Reply(status, position))
  {
    var body := "o" + Dec(status) + ";" + DecInt(position);
    assert EncodeReply(status, position) == body + EOL;
    assert '\r' !in body && |body| + 2 <= MAX_LINE by {
      hide *;
      DigitsHoldNo(status, '\r');
      DecIntHoldsNo(position, '\r');
      OneDigitStatus(status);
      DecInt32Length(position);
    }
    hide *;
    StoppedRunIsLine(stream, heard, MAX_LINE, EOL);
    assert stream == body + EOL + rest;
    FirstLineIsBody(body, rest, MAX_LINE);
    assert stream[..|heard|] == heard;
    assert (body + EOL + rest)[..|body| + 2] == body + EOL;
    ReportInvertsEncode(status, position);
  }

  /** The stream begins with this reply. */
  ghost predicate Replied(stream: string, status: nat, position: int, rest: string)
    requires status < 10
  {
    stream == EncodeReply(status, position) + rest
  }

  lemma ReadBackWhole(stream: string, heard: string, status: nat, position: int, rest: string)
    requires status < 10 && IsInt32(position) && Replied(stream, status, position, rest)
    requires heard <= stream && RunsThrough(heard, MAX_LINE, EOL) && StopsAt(heard, |heard|, MAX_LINE, EOL)
    ensures Report(heard) == Some(Reply(status, position))
  {
    PositionRoundTrip(stream, heard, status, position, rest);
  }

  /** The other half: the driver cuts two bytes off whatever came, so a reply
      that a timeout cut short is never read correctly.  The position is right
      exactly when the reply came in whole. */
  lemma PositionRightIffWhole(status: nat, position: int, n: nat)
    requires status < 10 && IsInt32(position)
    requires n <= |EncodeReply(status, position)|
    ensures Report(EncodeReply(status, position)[..n]) == Some(Reply(status, position))
       <==> n == |EncodeReply(status, position)|
  {
    var whole := EncodeReply(status, position);
    if n == |whole| {
      assert whole[..n] == whole;
      ReportInvertsEncode(status, position);
    } else if n >= 2 {
      var first, second := Dec(status), DecInt(position);
      OneDigitStatus(status);
      var text := "o" + first + ";" + second;
      assert whole == text + EOL;
      var answer := whole[..n][..n - 2];
      assert answer == text[..n - 2];
      hide EncodeReply;
      if n - 2 < 3 {
        NoSecondField(first, text, n - 2);
      } else {
        var j := n - 5;
        assert answer == "o" + first + ";" + second[..j];
        CutNumber(first, second, position, j);
      }
    }
  }

  lemma NoSecondField(first: string, text: string, k: nat)
    requires |first| == 1 && ';' !in first && k < 3 <= |text| && text[..3] == "o" + first + ";"
    ensures PositionField(text[..k]).Throw?
  {
    var answer := text[..k];
    assert answer == text[..3][..k];
    if k > 0 {
      assert answer[1..] == text[..3][1..k];
      assert ';' !in answer[1..];
      NoSeparator(answer[1..], ';');
    }
  }

  lemma CutNumber(first: string, second: string, position: int, j: nat)
    requires ';' !in first && second == DecInt(position) && j < |second| && IsInt32(position)
    ensures PositionField("o" + first + ";" + second[..j]) != Ok(position)
  {
    DecIntHoldsNo(position, ';');
    FieldsOf(first, second[..j]);
    hide Fields;
    CutNumberReads(position, j);
  }

  /** A printed number cut short reads as another number or not at all. */
  lemma CutNumberReads(x: int, j: nat)
    requires IsInt32(x) && j < |DecInt(x)|
    ensures var v := StoL(DecInt(x)[..j]); v.Ok? ==> ToInt32(v.value) != x
  {
    var n := if x < 0 then -x else x;
    var k := if x < 0 then j - 1 else j;
    var cut := DecInt(x)[..j];
    if k <= 0 {
      assert cut == [] || cut == "-";
      NothingToRead(cut);
    } else {
      CutDecimalIsSmaller(n, k);
      var digits := Dec(n)[..k];
      assert cut == if x < 0 then "-" + digits else digits;
      ReadDigits(digits, x < 0);
    }
  }

  lemma NothingToRead(s: string)
    requires s == [] || s == "-"
    ensures StoL(s) == Throw(InvalidArgument)
  {
    if s == "-" {
      assert LTrim(s) == s && s[1..] == [];
    }
  }
}
