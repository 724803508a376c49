/** The string helpers of the utility library: searching, tokenising, trimming. */
module Text {

  const WHITESPACE: string := [' ', '\n', '\r', '\t', 12 as char, 11 as char]

  // -------------------------------------------------------------------------
  // Searching
  // -------------------------------------------------------------------------

  predicate OccursAt(s: string, sep: string, i: int) {
    0 <= i && i + |sep| <= |s| && s[i..i + |sep|] == sep
  }

  ghost predicate Contains(s: string, sep: string) {
    exists i :: OccursAt(s, sep, i)
  }

  /** `std::string::find`: the first occurrence, or -1 for `npos`. */
  function Find(s: string, sep: string): (r: int)
    ensures r >= 0 ==> OccursAt(s, sep, r)
    ensures forall i :: 0 <= i && (r < 0 || i < r) ==> !OccursAt(s, sep, i)
  {
    if |s| < |sep| then -1
    else if s[..|sep|] == sep then 0
    else
      var r := Find(s[1..], sep);
      OccursShifted(s, sep);
      if r < 0 then -1 else r + 1
  }

  lemma OccursShifted(s: string, sep: string)
    requires s != []
    ensures forall i :: 1 <= i ==> (OccursAt(s, sep, i) <==> OccursAt(s[1..], sep, i - 1))
  {
    forall i | 1 <= i && i + |sep| <= |s|
      ensures OccursAt(s, sep, i) <==> OccursAt(s[1..], sep, i - 1)
    {
      assert s[1..][i - 1..i - 1 + |sep|] == s[i..i + |sep|];
    }
  }

  // -------------------------------------------------------------------------
  // Tokenising
  // -------------------------------------------------------------------------

  /** The pieces of `s` between left-to-right occurrences of `sep`. */
  function Tokens(s: string, sep: string): (ts: seq<string>)
    requires |sep| > 0
    decreases |s|
  {
    var p := Find(s, sep);
    if p < 0 then [s] else [s[..p]] + Tokens(s[p + |sep|..], sep)
  }

  lemma TokensStep(s: string, sep: string)
    requires |sep| > 0
    ensures var p := Find(s, sep);
      Tokens(s, sep) == if p < 0 then [s] else [s[..p]] + Tokens(s[p + |sep|..], sep)
  {
  }

  function Join(ts: seq<string>, sep: string): string
    requires |ts| > 0
  {
    if |ts| == 1 then ts[0] else ts[0] + sep + Join(ts[1..], sep)
  }

  /** The loop of `tokenize_string`: tokens are pushed on what the caller's
      vector already holds, and the input string is left as the last token. */
  method TokenizeString(input: string, before: seq<string>, sep: string)
    returns (str: string, tokens: seq<string>)
    requires |sep| > 0
    ensures tokens == before + Tokens(input, sep)
    ensures tokens[|tokens| - 1] == str
  {
    hide Tokens, Find;
    str, tokens := input, before;
    var pos := Find(str, sep);
    while pos >= 0
      invariant pos == Find(str, sep)
      invariant tokens + Tokens(str, sep) == before + Tokens(input, sep)
      decreases |str|
    {
      TokensStep(str, sep);
      ghost var rest := Tokens(str[pos + |sep|..], sep);
      assert tokens + ([str[..pos]] + rest) == tokens + [str[..pos]] + rest;
      tokens := tokens + [str[..pos]];
      str := str[pos + |sep|..];
      pos := Find(str, sep);
    }
    TokensStep(str, sep);
    tokens := tokens + [str];
  }

  /** Why the separator must not be empty: it is found at once and erasing it
      leaves the string as it was, so the loop would push "" for ever. */
  lemma EmptySeparatorStandsStill(s: string)
    ensures Find(s, "") == 0 && s[Find(s, "") + |""|..] == s
  {
    assert s[..0] == [];
  }

  /** The tokens rejoin to the input and none of them contains the separator. */
  lemma {:induction false} TokensRejoin(s: string, sep: string)
    requires |sep| > 0
    ensures |Tokens(s, sep)| > 0
    ensures Join(Tokens(s, sep), sep) == s
    ensures forall t <- Tokens(s, sep) :: !Contains(t, sep)
    decreases |s|
  {
    var p := Find(s, sep);
    if p < 0 {
    } else {
      var rest := s[p + |sep|..];
      TokensRejoin(rest, sep);
      assert s == s[..p] + sep + rest;
      assert Tokens(s, sep)[1..] == Tokens(rest, sep);
      forall i | OccursAt(s[..p], sep, i)
        ensures false
      {
        assert s[..p][i..i + |sep|] == s[i..i + |sep|];
        assert OccursAt(s, sep, i);
      }
    }
  }

  /** With a one-character separator the only way to cut a text into
      separator-free pieces is the tokenizer's: it inverts `Join`. */
  lemma {:induction false} TokensInvertJoin(ts: seq<string>, c: char)
    requires |ts| > 0
    requires forall t <- ts :: c !in t
    ensures Tokens(Join(ts, [c]), [c]) == ts
  {
    var s := Join(ts, [c]);
    if |ts| == 1 {
      NoSeparator(s, c);
    } else {
      var rest := Join(ts[1..], [c]);
      assert s == ts[0] + [c] + rest;
      var n := |ts[0]|;
      assert OccursAt(s, [c], n);
      assert forall i :: 0 <= i < n ==> s[i] == ts[0][i] && ts[0][i] in ts[0];
      assert forall i :: OccursAt(s, [c], i) ==> s[i..i + 1][0] == c && s[i] == c;
      assert Find(s, [c]) == n;
      assert s[n + 1..] == rest && s[..n] == ts[0];
      TokensInvertJoin(ts[1..], c);
      assert ts == [ts[0]] + ts[1..];
    }
  }

  lemma NoSeparator(s: string, c: char)
    requires c !in s
    ensures Find(s, [c]) < 0
  {
    assert forall i :: OccursAt(s, [c], i) ==> s[i..i + 1][0] == c && s[i] == c;
  }

  // -------------------------------------------------------------------------
  // Trimming
  // -------------------------------------------------------------------------

  function LTrim(s: string): (r: string) {
    if s == [] then [] else if s[0] in WHITESPACE then LTrim(s[1..]) else s
  }

  function RTrim(s: string): (r: string) {
    if s == [] then [] else if s[|s| - 1] in WHITESPACE then RTrim(s[..|s| - 1]) else s
  }

  function Trim(s: string): (r: string) {
    RTrim(LTrim(s))
  }

  predicate Blank(s: string) {
    forall i :: 0 <= i < |s| ==> s[i] in WHITESPACE
  }

  /** Neither end is whitespace. */
  predicate Trimmed(s: string) {
    s == [] || (s[0] !in WHITESPACE && s[|s| - 1] !in WHITESPACE)
  }

  /** Trimming cuts two runs of whitespace off a text and leaves none at the ends. */
  lemma TrimSplits(s: string) returns (a: string, b: string)
    ensures s == a + Trim(s) + b && Blank(a) && Blank(b) && Trimmed(Trim(s))
  {
    a := LTrimSplits(s);
    b := RTrimSplits(LTrim(s));
    var t := Trim(s);
    assert LTrim(s) == t + b && s == a + (t + b);
    assert t != [] ==> t[0] == LTrim(s)[0];
  }

  lemma {:induction false} LTrimSplits(s: string) returns (a: string)
    ensures s == a + LTrim(s) && Blank(a)
    ensures LTrim(s) != [] ==> LTrim(s)[0] !in WHITESPACE
  {
    a := [];
    if s != [] && s[0] in WHITESPACE {
      var rest := LTrimSplits(s[1..]);
      a := [s[0]] + rest;
      BlankAppend([s[0]], rest);
      assert s == [s[0]] + s[1..];
    }
  }

  lemma {:induction false} RTrimSplits(s: string) returns (b: string)
    ensures s == RTrim(s) + b && Blank(b)
    ensures RTrim(s) != [] ==> RTrim(s)[|RTrim(s)| - 1] !in WHITESPACE
  {
    b := [];
    if s != [] && s[|s| - 1] in WHITESPACE {
      var init, last := s[..|s| - 1], [s[|s| - 1]];
      var t := RTrim(init);
      assert RTrim(s) == t;
      hide RTrim;
      var rest := RTrimSplits(init);
      BlankAppend(rest, last);
      b := rest + last;
      assert s == init + last;
      assert t + rest + last == t + (rest + last);
    }
  }

  lemma BlankAppend(a: string, b: string)
    requires Blank(a) && Blank(b)
    ensures Blank(a + b)
  {
    assert forall i :: |a| <= i < |a + b| ==> (a + b)[i] == b[i - |a|];
  }

  /** And there is only one such part. */
  lemma TrimUnique(a: string, m: string, b: string)
    requires Blank(a) && Trimmed(m) && Blank(b)
    ensures Trim(a + m + b) == m
  {
    if m == [] {
      assert a + m + b == a + b && Blank(a + b);
      LTrimBlank(a + b, []);
      assert a + b + [] == a + b;
    } else {
      LTrimBlank(a, m + b);
      assert a + m + b == a + (m + b);
      RTrimBlank(m, b);
    }
  }

  lemma {:induction false} LTrimBlank(a: string, s: string)
    requires Blank(a) && (s != [] ==> s[0] !in WHITESPACE)
    ensures LTrim(a + s) == s
  {
    if a == [] {
      assert a + s == s;
    } else {
      LTrimBlank(a[1..], s);
      assert (a + s)[1..] == a[1..] + s;
    }
  }

  lemma {:induction false} RTrimBlank(s: string, b: string)
    requires Blank(b) && (s != [] ==> s[|s| - 1] !in WHITESPACE)
    ensures RTrim(s + b) == s
  {
    if b == [] {
      assert s + b == s;
    } else {
      RTrimBlank(s, b[..|b| - 1]);
      assert (s + b)[..|s + b| - 1] == s + b[..|b| - 1];
    }
  }
}
