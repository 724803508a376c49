/** What the power meter writes, and that the driver's conversions read it back:
    numbers, lists of numbers, and a setting followed by a list of options. */
module MeterReplies {
  import opened Outcome
  import opened Text
  import opened Decimal
  import opened MeterTables
  import CommandLine

  // -------------------------------------------------------------------------
  // Words
  // -------------------------------------------------------------------------

  predicate Word(w: string) {
    w != [] && forall i :: 0 <= i < |w| ==> w[i] !in WHITESPACE
  }

  predicate Listing(ws: seq<string>) {
    ws != [] && forall i :: 0 <= i < |ws| ==> Word(ws[i])
  }

  lemma {:induction false} JoinTrimmed(ws: seq<string>)
    requires Listing(ws)
    ensures Join(ws, " ") != [] && Trimmed(Join(ws, " "))
    ensures |Join(ws, " ")| >= 2 * |ws| - 1
  {
    assert Word(ws[0]);
    if |ws| > 1 {
      var rest := ws[1..];
      JoinTrimmed(rest);
      var s := Join(ws, " ");
      assert s == ws[0] + " " + Join(rest, " ");
      assert s[|s| - 1] == Join(rest, " ")[|Join(rest, " ")| - 1];
    }
  }

  lemma ListingMore(w: string, ws: seq<string>)
    requires Word(w) && Listing(ws)
    ensures Listing([w] + ws)
  {
    hide Word;
  }

  /** Words with one blank between them, and any whitespace around, are what trimming
      and tokenising give back. */
  lemma ListingTokens(a: string, ws: seq<string>, b: string)
    requires Blank(a) && Listing(ws) && Blank(b)
    ensures Tokens(Trim(a + Join(ws, " ") + b), " ") == ws
  {
    JoinTrimmed(ws);
    TrimUnique(a, Join(ws, " "), b);
    forall t <- ws
      ensures ' ' !in t
    {
      var i :| 0 <= i < |ws| && ws[i] == t;
      assert Word(ws[i]) && ' ' in WHITESPACE;
    }
    TokensInvertJoin(ws, ' ');
  }

  lemma NumberIsWord(x: int)
    ensures Word(DecInt(x))
  {
    DecValue(if x < 0 then -x else x);
  }

  // -------------------------------------------------------------------------
  // The replies
  // -------------------------------------------------------------------------

  lemma JoinMore(t: string, ts: seq<string>)
    ensures Join([t] + ts, " ") == if ts == [] then t else t + " " + Join(ts, " ")
  {
    assert ([t] + ts)[1..] == ts;
  }

  lemma FirstOff(c: char, a: string, b: string, d: string)
    ensures ([c] + a + " " + b + " " + d)[1..] == a + " " + (b + " " + d)
  {
  }

  /** The threshold and its limits. */
  function ThresholdText(current: nat, min: nat, max: nat): (s: string)
    ensures s != [] && s[0] == '*'
  {
    "*" + Dec(current) + " " + Dec(min) + " " + Dec(max)
  }

  lemma ThresholdTokens(current: nat, min: nat, max: nat)
    ensures Tokens(ThresholdText(current, min, max)[1..], " ") == [Dec(current), Dec(min), Dec(max)]
  {
    var ts := [Dec(current), Dec(min), Dec(max)];
    DigitsHoldNo(current, ' ');
    DigitsHoldNo(min, ' ');
    DigitsHoldNo(max, ' ');
    TokensInvertJoin(ts, ' ');
    hide Dec, Tokens, Join;
    JoinMore(Dec(current), [Dec(min), Dec(max)]);
    JoinMore(Dec(min), [Dec(max)]);
    JoinMore(Dec(max), []);
    FirstOff('*', Dec(current), Dec(min), Dec(max));
  }

  /** A number with whitespace around it. */
  function ModeText(a: string, mode: nat, b: string): (s: string)
    ensures s != []
  {
    a + ("*" + Dec(mode)) + b
  }

  lemma ModeTrimmed(a: string, mode: nat, b: string)
    requires Blank(a) && Blank(b)
    ensures Trim(ModeText(a, mode, b)) == "*" + Dec(mode)
  {
    NumberIsWord(mode);
    TrimUnique(a, "*" + Dec(mode), b);
  }

  /** The range in use and all ranges. */
  function RangesText(current: int, ranges: seq<string>, pad: string): (s: string)
    requires ranges != []
    ensures s != []
  {
    "*" + DecInt(current) + " " + Join(ranges, " ") + pad
  }

  lemma RangesTokens(current: int, ranges: seq<string>, pad: string)
    requires Listing(ranges) && Blank(pad)
    ensures Tokens(Trim(RangesText(current, ranges, pad)[1..]), " ") == [DecInt(current)] + ranges
    ensures |RangesText(current, ranges, pad)| > 2 * |ranges|
  {
    var ws := [DecInt(current)] + ranges;
    hide DecInt, Tokens, Trim, Join;
    NumberIsWord(current);
    ListingMore(DecInt(current), ranges);
    hide Listing, Word;
    ListingTokens("", ws, pad);
    JoinTrimmed(ranges);
    JoinMore(DecInt(current), ranges);
    assert RangesText(current, ranges, pad)[1..] == "" + Join(ws, " ") + pad;
  }

  lemma Int16Back(x: int)
    requires -INT16_LIMIT <= x < INT16_LIMIT
    ensures ToInt16(x % UINT16_LIMIT) == x
  {
  }

  /** The digit at a position of a reply. */
  function DigitAt(reply: string, i: nat): (r: Result<nat>)
    ensures r.Ok? ==> i < |reply|
  {
    if i < |reply| && IsDigit(reply[i]) then Ok(DigitValue(reply[i])) else Throw(InvalidArgument)
  }

  /** A one-digit setting and the options, numbered from 1. */
  function OptionsText(current: nat, gap: string, options: seq<string>, pad: string): (s: string)
    requires current < 10 && options != []
    ensures |s| >= 2
  {
    ['*', Digit(current)] + gap + Join(options, " ") + pad
  }

  lemma OptionsTokens(current: nat, gap: string, options: seq<string>, pad: string)
    requires current < 10 && Blank(gap) && Listing(options) && Blank(pad)
    ensures Tokens(Trim(OptionsText(current, gap, options, pad)[2..]), " ") == options
  {
    ListingTokens(gap, options, pad);
    assert OptionsText(current, gap, options, pad)[2..] == gap + Join(options, " ") + pad;
  }

  /** A setting and the averaging windows, the first of which is "NONE"; an empty entry
      is one more blank. */
  predicate Windows(ts: seq<string>) {
    ts != [] && ts[0] == "NONE" && forall i :: 0 <= i < |ts| ==> ts[i] == [] || Word(ts[i])
  }

  function WindowsText(head: string, windows: seq<string>): (s: string)
    requires windows != []
    ensures |s| >= |head|
  {
    head + Join(windows, " ")
  }

  lemma WindowsTokens(head: string, windows: seq<string>)
    requires 'N' !in head && Windows(windows)
    ensures Find(WindowsText(head, windows), "NONE") == |head|
    ensures NonBlank(Tokens(WindowsText(head, windows)[|head|..], " ")) == CommandLine.NonEmpty(windows)
  {
    var s, j := WindowsText(head, windows), Join(windows, " ");
    forall t <- windows
      ensures ' ' !in t
    {
      var i :| 0 <= i < |windows| && windows[i] == t;
      assert windows[i] == [] || Word(windows[i]);
      assert ' ' in WHITESPACE;
    }
    TokensInvertJoin(windows, ' ');
    assert s[|head|..] == j;
    NonBlankWords(windows);
    FoundBehind(head, j);
  }

  lemma OccursStarts(s: string, sep: string, i: int)
    requires 0 <= i < |s| && sep != []
    ensures OccursAt(s, sep, i) ==> s[i] == sep[0]
  {
    if OccursAt(s, sep, i) {
      assert s[i..i + |sep|][0] == s[i];
    }
  }

  lemma FoundBehind(head: string, j: string)
    requires 'N' !in head && |j| >= 4 && j[..4] == "NONE"
    ensures Find(head + j, "NONE") == |head|
  {
    var s := head + j;
    assert s[|head|..|head| + 4] == j[..4];
    assert OccursAt(s, "NONE", |head|);
    forall i | 0 <= i < |head|
      ensures !OccursAt(s, "NONE", i)
    {
      assert s[i] == head[i] && head[i] in head;
      OccursStarts(s, "NONE", i);
    }
  }

  lemma {:induction false} NonBlankWords(ts: seq<string>)
    requires forall i :: 0 <= i < |ts| ==> ts[i] == [] || Word(ts[i])
    ensures NonBlank(ts) == CommandLine.NonEmpty(ts)
  {
    if ts != [] {
      var k := |ts| - 1;
      NonBlankWords(ts[..k]);
      var w := ts[k];
      assert w == [] || Word(w);
      TrimUnique("", w, "");
      assert "" + w + "" == w;
      NonEmptySnoc(ts[..k], w);
      assert ts == ts[..k] + [w];
    }
  }

  lemma {:induction false} NonEmptySnoc(ts: seq<string>, w: string)
    ensures CommandLine.NonEmpty(ts + [w]) == CommandLine.NonEmpty(ts) + (if w == [] then [] else [w])
  {
    if ts != [] {
      NonEmptySnoc(ts[1..], w);
      assert (ts + [w])[1..] == ts[1..] + [w];
    }
  }
}
