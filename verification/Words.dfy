/** Splitting a command line into words, as the manager does with `strtok`. */
module CommandLine {
  import opened Outcome
  import opened Text

  /** Characters up to the first space. */
  function WordLength(s: string): (k: nat)
    ensures k <= |s| && (s != [] && s[0] != ' ' ==> k > 0)
  {
    if s == [] || s[0] == ' ' then 0 else 1 + WordLength(s[1..])
  }

  /** The non-empty words between spaces. */
  function Words(s: string): seq<string>
    decreases |s|
  {
    if s == [] then []
    else if s[0] == ' ' then Words(s[1..])
    else [s[..WordLength(s)]] + Words(s[WordLength(s)..])
  }

  function Spaces(s: string): nat {
    if s == [] then 0 else (if s[|s| - 1] == ' ' then 1 else 0) + Spaces(s[..|s| - 1])
  }

  function NonEmpty(ts: seq<string>): seq<string> {
    if ts == [] then [] else (if ts[0] == [] then [] else [ts[0]]) + NonEmpty(ts[1..])
  }

  lemma {:induction false} WordLengthStops(s: string)
    ensures forall i :: 0 <= i < WordLength(s) ==> s[i] != ' '
    ensures WordLength(s) < |s| ==> s[WordLength(s)] == ' '
  {
    if s != [] && s[0] != ' ' {
      WordLengthStops(s[1..]);
    }
  }

  /** The words are the tokens of the line with the empty ones dropped. */
  lemma {:induction false} WordsAreTokens(s: string)
    ensures Words(s) == NonEmpty(Tokens(s, " "))
    decreases |s|
  {
    var k := WordLength(s);
    WordLengthStops(s);
    if k == |s| {
      assert ' ' !in s;
      NoSeparator(s, ' ');
      if s != [] {
        assert s[..k] == s && s[k..] == [];
      }
      assert [s][1..] == [];
    } else {
      FirstSpace(s, k);
      WordsAreTokens(s[k + 1..]);
      assert Tokens(s, " ") == [s[..k]] + Tokens(s[k + 1..], " ");
      WordsPastSpace(s, k);
      hide Tokens, Words;
    }
  }

  lemma FirstSpace(s: string, k: nat)
    requires k < |s| && s[k] == ' ' && forall i :: 0 <= i < k ==> s[i] != ' '
    ensures Find(s, " ") == k
  {
    assert OccursAt(s, " ", k);
    assert forall i :: OccursAt(s, " ", i) ==> s[i..i + 1][0] == ' ' && s[i] == ' ';
  }

  lemma WordsPastSpace(s: string, k: nat)
    requires k == WordLength(s) && k < |s| && s[k] == ' '
    ensures Words(s) == (if k == 0 then [] else [s[..k]]) + Words(s[k + 1..])
  {
    if k > 0 {
      var rest := s[k..];
      assert rest[0] == ' ' && rest[1..] == s[k + 1..];
    }
  }

  lemma {:induction false} SpacesFront(s: string)
    requires s != []
    ensures Spaces(s) == (if s[0] == ' ' then 1 else 0) + Spaces(s[1..])
  {
    if |s| > 1 {
      SpacesFront(s[..|s| - 1]);
      assert s[..|s| - 1][1..] == s[1..][..|s| - 2];
    } else {
      assert s[..0] == [] && s[1..] == [];
    }
  }

  /** There is never more than one word more than there are spaces. */
  lemma {:induction false} WordsBound(s: string)
    ensures |Words(s)| <= Spaces(s) + 1
    ensures s != [] && s[0] == ' ' ==> |Words(s)| <= Spaces(s)
    decreases |s|
  {
    if s != [] {
      SpacesFront(s);
      if s[0] == ' ' {
        WordsBound(s[1..]);
      } else {
        var k := WordLength(s);
        WordLengthStops(s);
        WordsBound(s[k..]);
        SpacesAfterWord(s, k);
      }
    }
  }

  lemma {:induction false} SpacesAfterWord(s: string, k: nat)
    requires k <= |s| && forall i :: 0 <= i < k ==> s[i] != ' '
    ensures Spaces(s) == Spaces(s[k..])
  {
    if k == 0 {
      assert s[0..] == s;
    } else {
      SpacesFront(s);
      SpacesAfterWord(s[1..], k - 1);
      assert s[1..][k - 1..] == s[k..];
    }
  }

  // -------------------------------------------------------------------------
  // The code
  // -------------------------------------------------------------------------

  /** One call of `strtok`: the next word from `from`, and where to go on. */
  method Strtok(buf: string, from: nat) returns (word: Option<string>, next: nat)
    requires from <= |buf|
    ensures next <= |buf|
    ensures word.None? ==> Words(buf[from..]) == []
    ensures word.Some? ==> word.value != [] && Words(buf[from..]) == [word.value] + Words(buf[next..])
  {
    var i := SkipSpaces(buf, from);
    if i == |buf| {
      assert buf[i..] == [];
      return None, i;
    }
    var k := ScanWord(buf, i);
    WordAt(buf, i, k);
    word := Some(buf[i..i + k]);
    next := if i + k < |buf| then i + k + 1 else i + k;
  }

  lemma WordAt(buf: string, i: nat, k: nat)
    requires i < |buf| && buf[i] != ' ' && k == WordLength(buf[i..])
    ensures k > 0 && i + k <= |buf|
    ensures Words(buf[i..]) == [buf[i..i + k]] + Words(buf[if i + k < |buf| then i + k + 1 else i + k..])
  {
    var rest := buf[i..];
    WordLengthStops(rest);
    assert rest[..k] == buf[i..i + k] && rest[k..] == buf[i + k..];
    if i + k < |buf| {
      WordsPastSpace(rest, k);
      assert rest[k + 1..] == buf[i + k + 1..];
    }
  }

  method SkipSpaces(buf: string, from: nat) returns (i: nat)
    requires from <= |buf|
    ensures from <= i <= |buf| && (i < |buf| ==> buf[i] != ' ')
    ensures Words(buf[from..]) == Words(buf[i..])
  {
    i := from;
    while i < |buf| && buf[i] == ' '
      invariant from <= i <= |buf|
      invariant Words(buf[from..]) == Words(buf[i..])
    {
      assert buf[i..][1..] == buf[i + 1..];
      i := i + 1;
    }
  }

  method ScanWord(buf: string, i: nat) returns (k: nat)
    requires i <= |buf|
    ensures k == WordLength(buf[i..]) && i + k <= |buf|
  {
    k := 0;
    while i + k < |buf| && buf[i + k] != ' '
      invariant i + k <= |buf|
      invariant WordLength(buf[i..]) == k + WordLength(buf[i + k..])
    {
      assert buf[i + k..][1..] == buf[i + k + 1..];
      k := k + 1;
    }
  }

  /** The `strchr` loop. */
  method CountWords(buf: string) returns (count: nat)
    ensures count == Spaces(buf) + 1
  {
    count := 1;
    for i := 0 to |buf|
      invariant count == Spaces(buf[..i]) + 1
    {
      assert buf[..i + 1][..i] == buf[..i];
      if buf[i] == ' ' {
        count := count + 1;
      }
    }
    assert buf[..|buf|] == buf;
  }

  /** The read-split loop: an array with one slot per possible word is filled by
      `strtok` and never overrun, and the arguments are the non-empty tokens of
      the line. */
  method SplitLine(buf: string) returns (argc: nat, cmd: array<Option<string>>)
    ensures fresh(cmd)
    ensures argc == |Words(buf)| && argc <= cmd.Length == Spaces(buf) + 1
    ensures forall j :: 0 <= j < argc ==> cmd[j] == Some(Words(buf)[j])
    ensures Words(buf) == NonEmpty(Tokens(buf, " "))
  {
    WordsAreTokens(buf);
    var count := CountWords(buf);
    WordsBound(buf);
    assert buf[0..] == buf;
    hide Spaces, Words, WordLength, Tokens, NonEmpty;
    cmd := new Option<string>[count](_ => None);
    var word: Option<string>, pos: nat := Strtok(buf, 0);
    cmd[0] := word;
    var i := 1;
    ghost var seen := if word.Some? then [word.value] else [];
    ghost var left := if word.Some? then Words(buf[pos..]) else [];
    while cmd[i - 1].Some? && i < count
      invariant 1 <= i <= count && pos <= |buf| && cmd[i - 1] == word
      invariant |seen| == if word.Some? then i else i - 1
      invariant forall j :: 0 <= j < |seen| ==> cmd[j] == Some(seen[j])
      invariant left == if word.Some? then Words(buf[pos..]) else []
      invariant Words(buf) == seen + left
    {
      word, pos := Strtok(buf, pos);
      cmd[i] := word;
      if word.Some? {
        left := Words(buf[pos..]);
        Associate(seen, [word.value], left);
        seen := seen + [word.value];
      }
      i := i + 1;
    }
    if cmd[i - 1].None? {
      i := i - 1;
    }
    argc := i;
  }
}
