/** The motor behind the attenuator: what the conversation on the wire says about
    where it stands. */
module MotorModel {
  import opened Outcome
  import opened Decimal
  import opened AttenuatorWire
  import opened Transcript

  // -------------------------------------------------------------------------
  // Command texts
  // -------------------------------------------------------------------------

  datatype Command =
    | Move(steps: int)         // m x
    | GoTo(target: int)        // g x
    | SetCounter(value: int)   // i x
    | ZeroCounter              // h
    | Home                     // zp
    | SoftStop                 // st
    | HardStop                 // b
    | Other

  function Argument(text: string): Result<int> {
    if |text| < 4 || text[|text| - 1] != '\r' then Throw(InvalidArgument) else StoL(text[2..|text| - 1])
  }

  function Decode(text: string): Command {
    if text == "h\r" then ZeroCounter
    else if text == "zp\r" then Home
    else if text == "st\r" then SoftStop
    else if text == "b\r" then HardStop
    else if |text| < 2 || text[1] != ' ' then Other
    else
      var arg := Argument(text);
      if !arg.Ok? then Other
      else if text[0] == 'm' then Move(arg.value)
      else if text[0] == 'g' then GoTo(arg.value)
      else if text[0] == 'i' then SetCounter(arg.value)
      else Other
  }

  /** The text of a command with one integer argument. */
  function Text1(letter: char, x: int): string {
    [letter, ' '] + DecInt(x)
  }

  /** The device understands the number the driver meant. */
  lemma DecodeText1(letter: char, x: int)
    requires -INT64_LIMIT <= x < INT64_LIMIT
    ensures var c := Decode(Text1(letter, x) + "\r");
      c == if letter == 'm' then Move(x) else if letter == 'g' then GoTo(x)
           else if letter == 'i' then SetCounter(x) else Other
  {
    var text := Text1(letter, x) + "\r";
    assert text[2..|text| - 1] == DecInt(x);
    StoLInvertsPrint(x);
    hide StoL, DecInt;
    assert text[1] == ' ' && text[0] == letter;
  }

  // -------------------------------------------------------------------------
  // Motion safety
  // -------------------------------------------------------------------------

  /** Messages that move the motor or redefine its counter. */
  predicate MotionText(text: string) {
    var c := Decode(text);
    c.Move? || c.GoTo? || c.SetCounter? || c.ZeroCounter? || c.Home?
  }

  predicate ReportsStopped(x: Item) {
    x.Line? && Report(x.bytes).Some? && Report(x.bytes).value.status == 0
  }

  predicate GuardedAt(d: seq<Item>, i: nat)
    requires i < |d|
  {
    d[i].Msg? && MotionText(d[i].text) ==> i >= 2 && d[i - 2] == Msg("o\r") && ReportsStopped(d[i - 1])
  }

  /** Every motion message directly follows a position query that was answered
      with "stopped". */
  ghost predicate Guarded(d: seq<Item>) {
    forall i :: 0 <= i < |d| ==> GuardedAt(d, i)
  }

  /** The conversation so far ends with an answered query that said "stopped". */
  predicate EndsStopped(d: seq<Item>) {
    |d| >= 2 && d[|d| - 2] == Msg("o\r") && ReportsStopped(d[|d| - 1])
  }

  lemma GuardedSnoc(d: seq<Item>, x: Item)
    requires Guarded(d)
    requires EndsStopped(d) || x.Line? || !MotionText(x.text)
    ensures Guarded(d + [x])
  {
    hide MotionText, ReportsStopped;
    var e := d + [x];
    forall i | 0 <= i < |e|
      ensures GuardedAt(e, i)
    {
      if i < |d| {
        assert GuardedAt(d, i);
      }
    }
  }

  /** The commands without an argument. */
  lemma FixedTexts()
    ensures "h" + "\r" == "h\r" && Decode("h\r") == ZeroCounter
    ensures "zp" + "\r" == "zp\r" && Decode("zp\r") == Home
    ensures "st" + "\r" == "st\r" && Decode("st\r") == SoftStop
    ensures "b" + "\r" == "b\r" && Decode("b\r") == HardStop
  {
  }

  lemma QueryText()
    ensures Decode("o\r") == Other && !MotionText("o\r")
  {
  }

  lemma MotionText1(letter: char, x: int)
    requires IsInt32(x) && (letter == 'm' || letter == 'g' || letter == 'i')
    ensures MotionText(Text1(letter, x) + "\r") && '\r' !in Text1(letter, x)
  {
    DecIntHoldsNo(x, '\r');
    DecodeText1(letter, x);
    hide Decode, DecInt;
  }

  lemma ZeroText()
    ensures MotionText("h" + "\r")
  {
    FixedTexts();
  }

  lemma HomeText()
    ensures MotionText("zp" + "\r")
  {
    FixedTexts();
  }

  /** A position query may be sent and answered at any time. */
  lemma QueryGuarded(d: seq<Item>, q: seq<Item>)
    requires Guarded(d) && QueryShape(q)
    ensures Guarded(d + q)
  {
    QueryText();
    hide *;
    QueryShapes(q);
    if |q| >= 1 {
      GuardedSnoc(d, q[0]);
    }
    if |q| == 2 {
      GuardedSnoc(d + [q[0]], q[1]);
      assert d + q == d + [q[0]] + [q[1]];
    } else if |q| == 1 {
      assert q == [q[0]];
    } else {
      assert d + q == d;
    }
  }

  /** What a position query leaves on the wire: nothing, the query, or the query
      and a line. */
  predicate QueryShape(q: seq<Item>) {
    |q| <= 2 && (|q| >= 1 ==> q[0] == Msg("o\r")) && (|q| == 2 ==> q[1].Line?)
  }

  lemma QueryShapes(q: seq<Item>)
    requires QueryShape(q)
    ensures |q| <= 2 && (|q| >= 1 ==> q[0] == Msg("o\r")) && (|q| == 2 ==> q[1].Line?)
  {
  }

  /** The query was answered, and the driver can read the answer. */
  predicate Spoke(q: seq<Item>) {
    QueryShape(q) && |q| == 2 && Report(q[1].bytes).Some?
  }

  predicate SaysStopped(q: seq<Item>) {
    QueryShape(q) && |q| == 2 && ReportsStopped(q[1])
  }

  lemma SpokeStatus(q: seq<Item>)
    requires QueryShape(q)
    ensures Spoke(q) <==> |q| == 2 && Report(q[1].bytes).Some?
    ensures SaysStopped(q) <==> Spoke(q) && Report(q[1].bytes).value.status == 0
  {
    hide Report;
  }

  /** A query that said "stopped" is what a conversation ending that way ends with. */
  lemma EndsWithStopped(d: seq<Item>, q: seq<Item>)
    requires QueryShape(q)
    ensures SaysStopped(q) ==> EndsStopped(d + q)
    ensures |q| == 2 && EndsStopped(d + q) ==> SaysStopped(q)
  {
    hide ReportsStopped;
    if |q| == 2 {
      var e := d + q;
      assert e[|e| - 2] == q[0] && e[|e| - 1] == q[1];
    }
  }

  // -------------------------------------------------------------------------
  // Polling
  // -------------------------------------------------------------------------

  /** Exchanges one after the other. */
  function Flat(qs: seq<seq<Item>>): seq<Item> {
    if qs == [] then [] else Flat(qs[..|qs| - 1]) + qs[|qs| - 1]
  }

  function Last(qs: seq<seq<Item>>): seq<Item>
    requires qs != []
  {
    qs[|qs| - 1]
  }

  /** Position queries of which only the last may have failed or said "stopped". */
  predicate Polling(qs: seq<seq<Item>>) {
    && qs != [] && QueryShape(Last(qs))
    && forall i :: 0 <= i < |qs| - 1 ==> Spoke(qs[i]) && !SaysStopped(qs[i])
  }

  lemma PollingOnce(q: seq<Item>)
    requires QueryShape(q)
    ensures Polling([q]) && Last([q]) == q && Flat([q]) == q
  {
    assert Flat([]) == [];
    hide Spoke, SaysStopped, QueryShape;
  }

  lemma OnlyPoll(qs: seq<seq<Item>>)
    requires Polling(qs) && |qs| == 1
    ensures Flat(qs) == qs[0] == Last(qs) && QueryShape(qs[0])
  {
    hide QueryShape;
    assert qs == [qs[0]];
    PollingFlat(qs[0]);
  }

  lemma PollingFlat(q: seq<Item>)
    ensures Flat([q]) == q
  {
    assert Flat([]) == [];
  }

  lemma PollingAgain(d: seq<Item>, qs: seq<seq<Item>>, q: seq<Item>)
    requires Polling(qs) && Spoke(Last(qs)) && !SaysStopped(Last(qs)) && QueryShape(q)
    ensures Polling(qs + [q]) && Last(qs + [q]) == q
    ensures d + Flat(qs) + q == d + Flat(qs + [q])
  {
    hide Spoke, SaysStopped, QueryShape;
    assert (qs + [q])[..|qs|] == qs;
  }

  /** Polling ends with the first "stopped": if that is what the motor's k-th
      answer says, a wait that ends well has asked exactly k times, and no wait
      asks more often. */
  lemma PolledExactly(qs: seq<seq<Item>>, answers: seq<Item>, k: nat)
    requires Polling(qs)
    requires forall i :: 0 <= i < |qs| && |qs[i]| == 2 ==> i < |answers| && qs[i][1] == answers[i]
    requires 1 <= k <= |answers| && ReportsStopped(answers[k - 1])
    requires forall i :: 0 <= i < k - 1 ==> !ReportsStopped(answers[i])
    ensures |qs| <= k
    ensures SaysStopped(Last(qs)) <==> |qs| == k && |Last(qs)| == 2
  {
    hide ReportsStopped;
    if |qs| > k {
      assert false;
    }
    var n := |qs| - 1;
    if |qs[n]| == 2 {
      assert qs[n][1] == answers[n];
    }
  }

  // -------------------------------------------------------------------------
  // How often the motor is told to move
  // -------------------------------------------------------------------------

  function Motions(d: seq<Item>): nat {
    if d == [] then 0
    else
      var x := d[|d| - 1];
      Motions(d[..|d| - 1]) + (if x.Msg? && MotionText(x.text) then 1 else 0)
  }

  lemma MotionsSnoc(d: seq<Item>, x: Item)
    ensures Motions(d + [x]) == Motions(d) + (if x.Msg? && MotionText(x.text) then 1 else 0)
  {
    hide MotionText;
    assert (d + [x])[..|d|] == d;
  }

  lemma QueryMovesNothing(d: seq<Item>, q: seq<Item>)
    requires QueryShape(q)
    ensures Motions(d + q) == Motions(d)
  {
    QueryText();
    hide *;
    QueryShapes(q);
    if |q| == 0 {
      assert d + q == d;
    } else {
      MotionsSnoc(d, q[0]);
      if |q| == 1 {
        assert q == [q[0]];
      } else {
        MotionsSnoc(d + [q[0]], q[1]);
        assert d + q == d + [q[0]] + [q[1]];
      }
    }
  }

  lemma {:induction false} PollsMoveNothing(d: seq<Item>, qs: seq<seq<Item>>)
    requires forall i :: 0 <= i < |qs| ==> QueryShape(qs[i])
    ensures Motions(d + Flat(qs)) == Motions(d)
  {
    hide Motions, QueryShape;
    if qs == [] {
      assert d + Flat(qs) == d;
    } else {
      var k := |qs| - 1;
      PollsMoveNothing(d, qs[..k]);
      QueryMovesNothing(d + Flat(qs[..k]), qs[k]);
      Associate(d, Flat(qs[..k]), qs[k]);
    }
  }

  /** What a motion call leaves on the wire: the query in front of it, its own
      message if that went out, and the polls behind it. */
  datatype Course = Course(query: seq<Item>, sent: bool, polls: seq<seq<Item>>)

  function Trail(c: Course, text: string): seq<Item> {
    c.query + (if c.sent then [Msg(text)] else []) + Flat(c.polls)
  }

  /** The message goes out only behind a "stopped", and once; polls follow only if
      it went out. */
  predicate Proper(c: Course, wait: bool) {
    && QueryShape(c.query) && (c.sent ==> SaysStopped(c.query))
    && (c.polls != [] <==> c.sent && wait) && (c.polls != [] ==> Polling(c.polls))
  }

  /** At most once, seen from outside: a motion call tells the motor to move once
      if its message went out and not at all otherwise. */
  lemma MovedOnce(d: seq<Item>, c: Course, text: string, wait: bool)
    requires Proper(c, wait) && MotionText(text)
    ensures Motions(d + Trail(c, text)) == Motions(d) + (if c.sent then 1 else 0)
  {
    hide Motions, MotionText, Flat, Spoke, SaysStopped, QueryShape;
    QueryMovesNothing(d, c.query);
    var mine := if c.sent then [Msg(text)] else [];
    if c.sent {
      MotionsSnoc(d + c.query, Msg(text));
    } else {
      assert d + c.query + mine == d + c.query;
    }
    PollsAreQueries(c.polls);
    PollsMoveNothing(d + c.query + mine, c.polls);
    Associate(d, c.query, mine);
    Associate(d, c.query + mine, Flat(c.polls));
  }

  // What the stages of a motion call leave behind
  lemma Unsent(d: seq<Item>, q: seq<Item>, text: string, wait: bool)
    requires QueryShape(q) && MotionText(text)
    ensures var c := Course(q, false, []);
      Proper(c, wait) && d + q == d + Trail(c, text) && Motions(d + Trail(c, text)) == Motions(d)
  {
    var c := Course(q, false, []);
    assert d + q == d + Trail(c, text);
    hide QueryShape, Motions, MotionText, SaysStopped, Trail;
    MovedOnce(d, c, text, wait);
  }

  lemma SentUnpolled(d: seq<Item>, q: seq<Item>, text: string)
    requires QueryShape(q) && SaysStopped(q) && MotionText(text)
    ensures var c := Course(q, true, []);
      && Proper(c, false) && d + q + [Msg(text)] == d + Trail(c, text)
      && Motions(d + Trail(c, text)) == Motions(d) + 1
  {
    var c := Course(q, true, []);
    assert d + q + [Msg(text)] == d + Trail(c, text);
    hide QueryShape, Motions, MotionText, SaysStopped, Trail;
    MovedOnce(d, c, text, false);
  }

  lemma SentAndPolled(d: seq<Item>, q: seq<Item>, text: string, qs: seq<seq<Item>>)
    requires QueryShape(q) && SaysStopped(q) && MotionText(text) && Polling(qs)
    ensures var c := Course(q, true, qs);
      && Proper(c, true) && d + q + [Msg(text)] + Flat(qs) == d + Trail(c, text)
      && Motions(d + Trail(c, text)) == Motions(d) + 1
  {
    var c := Course(q, true, qs);
    hide Flat, QueryShape, Motions, MotionText, SaysStopped, Spoke;
    assert d + q + [Msg(text)] + Flat(qs) == d + Trail(c, text);
    hide Trail;
    MovedOnce(d, c, text, true);
  }

  lemma PollsAreQueries(qs: seq<seq<Item>>)
    requires qs != [] ==> Polling(qs)
    ensures forall i :: 0 <= i < |qs| ==> QueryShape(qs[i])
  {
    hide QueryShape, SaysStopped;
    forall i | 0 <= i < |qs|
      ensures QueryShape(qs[i])
    {
      if i < |qs| - 1 {
        assert Spoke(qs[i]);
      } else {
        assert qs[i] == Last(qs);
      }
    }
  }

  // -------------------------------------------------------------------------
  // The motor
  // -------------------------------------------------------------------------

  /** `rest` is the counter value the motor stands at or is on its way to, if
      known; physical position = counter + `bias`. */
  datatype Motor = Motor(rest: Option<int>, bias: int)

  /** The counter of a motor at rest is redefined without moving it. */
  function Recount(m: Motor, value: int): Motor {
    Motor(Some(value), if m.rest.Some? then m.bias + m.rest.value - value else m.bias)
  }

  function Step(m: Motor, x: Item): Motor {
    match x
    case Msg(text) => (
      match Decode(text)
      case Move(s) => m.(rest := if m.rest.Some? then Some(m.rest.value + s) else None)
      case GoTo(t) => m.(rest := Some(t))
      case SetCounter(v) => Recount(m, v)
      case ZeroCounter => Recount(m, 0)
      case Home => Motor(Some(0), 0)
      case SoftStop => m.(rest := None)
      case HardStop => m.(rest := None)
      case Other => m
    )
    case Line(bytes) => if ReportsStopped(x) && m.rest.None? then m.(rest := Some(Report(bytes).value.position)) else m
  }

  /** Motion commands that are not allowed to change the bias, and those that do. */
  lemma StepText1(m: Motor, letter: char, x: int)
    requires IsInt32(x) && (letter == 'm' || letter == 'g' || letter == 'i')
    ensures var m' := Step(m, Msg(Text1(letter, x) + "\r"));
      if letter == 'm' then m' == m.(rest := if m.rest.Some? then Some(m.rest.value + x) else None)
      else if letter == 'g' then m' == m.(rest := Some(x))
      else m' == Recount(m, x)
  {
    DecodeText1(letter, x);
    hide Decode, Text1, Recount;
  }

  lemma StepFixed(m: Motor)
    ensures Step(m, Msg("h" + "\r")) == Recount(m, 0)
    ensures Step(m, Msg("zp" + "\r")) == Motor(Some(0), 0)
    ensures Step(m, Msg("st" + "\r")) == m.(rest := None)
    ensures Step(m, Msg("b" + "\r")) == m.(rest := None)
    ensures !MotionText("st" + "\r") && !MotionText("b" + "\r")
  {
    FixedTexts();
    hide Decode, Recount;
  }

  function MotorAfter(d: seq<Item>, bias: int): Motor {
    if d == [] then Motor(None, bias) else Step(MotorAfter(d[..|d| - 1], bias), d[|d| - 1])
  }

  /** The motor reports "stopped" only at rest, with its counter. */
  predicate HonestAt(m: Motor, x: Item) {
    ReportsStopped(x) && m.rest.Some? ==> Report(x.bytes).value.position == m.rest.value
  }

  ghost predicate Honest(d: seq<Item>, bias: int) {
    forall i :: 0 <= i < |d| ==> HonestAt(MotorAfter(d[..i], bias), d[i])
  }

  lemma MotorStep(d: seq<Item>, x: Item, bias: int)
    ensures MotorAfter(d + [x], bias) == Step(MotorAfter(d, bias), x)
  {
    hide Step;
    assert (d + [x])[..|d|] == d;
  }

  lemma MotorSnoc(d: seq<Item>, x: Item, bias: int)
    ensures MotorAfter(d + [x], bias) == Step(MotorAfter(d, bias), x)
    ensures Honest(d + [x], bias) <==> Honest(d, bias) && HonestAt(MotorAfter(d, bias), x)
  {
    hide MotorAfter, HonestAt, Step;
    MotorStep(d, x, bias);
    var e := d + [x];
    assert e[..|d|] == d && e[|d|] == x;
    assert forall i :: 0 <= i < |d| ==> e[..i] == d[..i] && e[i] == d[i];
    if Honest(d, bias) && HonestAt(MotorAfter(d, bias), x) {
      forall i | 0 <= i < |e|
        ensures HonestAt(MotorAfter(e[..i], bias), e[i])
      {
        if i < |d| {
          assert HonestAt(MotorAfter(d[..i], bias), d[i]);
        }
      }
    }
    if Honest(e, bias) {
      assert HonestAt(MotorAfter(e[..|d|], bias), e[|d|]);
      forall i | 0 <= i < |d|
        ensures HonestAt(MotorAfter(d[..i], bias), d[i])
      {
        assert HonestAt(MotorAfter(e[..i], bias), e[i]);
      }
    }
  }

  /** The bias and the knowledge where the motor rests survive a query; a
      "stopped" answer tells where it rests, and an honest motor tells the truth. */
  lemma QueryEffect(d: seq<Item>, q: seq<Item>, bias: int)
    requires QueryShape(q)
    ensures var m, m' := MotorAfter(d, bias), MotorAfter(d + q, bias);
      && m'.bias == m.bias
      && (Honest(d + q, bias) ==> Honest(d, bias))
      && (|q| == 2 && ReportsStopped(q[1]) ==> m'.rest.Some? && (m.rest.Some? ==> m' == m))
      && (|q| == 2 && ReportsStopped(q[1]) && Honest(d + q, bias) ==>
            m'.rest == Some(Report(q[1].bytes).value.position))
      && (!(|q| == 2 && ReportsStopped(q[1])) ==> m' == m)
  {
    hide *;
    QueryShapes(q);
    if |q| == 0 {
      assert d + q == d;
    } else {
      StepQuery(MotorAfter(d, bias));
      MotorSnoc(d, q[0], bias);
      if |q| == 1 {
        assert q == [q[0]];
      } else {
        StepLine(MotorAfter(d, bias), q[1]);
        MotorSnoc(d + [q[0]], q[1], bias);
        assert d + q == d + [q[0]] + [q[1]];
      }
    }
  }

  lemma StepQuery(m: Motor)
    ensures Step(m, Msg("o\r")) == m
  {
    QueryText();
    hide Decode;
  }

  lemma StepLine(m: Motor, x: Item)
    requires x.Line?
    ensures Step(m, x).bias == m.bias
    ensures !ReportsStopped(x) ==> Step(m, x) == m
    ensures ReportsStopped(x) ==> Report(x.bytes).Some? && Step(m, x).rest.Some? && (m.rest.Some? ==> Step(m, x) == m)
    ensures ReportsStopped(x) && HonestAt(m, x) ==> Step(m, x).rest == Some(Report(x.bytes).value.position)
  {
    hide Report;
  }

  /** The conversation ends with a query answered by this status and position. */
  predicate Answered(d: seq<Item>, status: int, position: int) {
    |d| >= 2 && d[|d| - 2] == Msg("o\r") && d[|d| - 1].Line?
    && Report(d[|d| - 1].bytes) == Some(Reply(status, position))
  }

  lemma AnsweredNow(d: seq<Item>, q: seq<Item>, status: int, position: int)
    requires QueryShape(q) && |q| == 2 && Report(q[1].bytes) == Some(Reply(status, position))
    ensures Answered(d + q, status, position)
    ensures ReportsStopped(q[1]) <==> status == 0
  {
    hide Report;
    assert (d + q)[|d|] == q[0] && (d + q)[|d| + 1] == q[1];
  }

  /** A settings query and its answer, like every exchange that is not motion,
      are safe and leave the bias alone. */
  lemma QuietExchange(d: seq<Item>, text: string, line: Option<string>, bias: int)
    requires Guarded(d) && Decode(text) == Other
    ensures var e := d + [Msg(text)] + (if line.Some? then [Line(line.value)] else []);
      && Guarded(e)
      && MotorAfter(e, bias).bias == MotorAfter(d, bias).bias
      && (Honest(e, bias) ==> Honest(d, bias))
  {
    assert !MotionText(text) && Step(MotorAfter(d, bias), Msg(text)) == MotorAfter(d, bias);
    hide *;
    var one := d + [Msg(text)];
    GuardedSnoc(d, Msg(text));
    MotorSnoc(d, Msg(text), bias);
    if line.Some? {
      GuardedSnoc(one, Line(line.value));
      MotorSnoc(one, Line(line.value), bias);
      StepLine(MotorAfter(one, bias), Line(line.value));
    } else {
      assert one + [] == one;
    }
  }

  lemma SettingsText()
    ensures "pc" + "\r" == "pc\r" && Decode("pc\r") == Other
  {
  }
}
