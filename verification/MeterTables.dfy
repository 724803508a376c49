/** The power meter's option tables: numbered entries filled from a tokenised reply. */
module MeterTables {
  import opened Text

  const INT16_LIMIT: int := 0x8000
  const UINT16_LIMIT: int := 0x1_0000

  /** Narrowing to `int16_t`. */
  function ToInt16(x: int): int {
    (x + INT16_LIMIT) % UINT16_LIMIT - INT16_LIMIT
  }

  /** Entries numbered from `first` in order. */
  function Numbered(ts: seq<string>, first: int): map<int, string> {
    if ts == [] then map[] else Numbered(ts[..|ts| - 1], first)[first + |ts| - 1 := ts[|ts| - 1]]
  }

  /** Its keys are exactly the consecutive numbers, its values the entries. */
  lemma {:induction false} NumberedAt(ts: seq<string>, first: int)
    ensures forall k :: k in Numbered(ts, first) <==> first <= k < first + |ts|
    ensures forall k :: k in Numbered(ts, first) ==> Numbered(ts, first)[k] == ts[k - first]
  {
    if ts != [] {
      NumberedAt(ts[..|ts| - 1], first);
    }
  }

  lemma NumberedSnoc(ts: seq<string>, t: string, first: int)
    ensures Numbered(ts + [t], first) == Insert(Numbered(ts, first), first + |ts|, t)
  {
    NumberedAt(ts, first);
    assert (ts + [t])[..|ts|] == ts;
  }

  /** `map::insert`: an existing key keeps its value. */
  function Insert(m: map<int, string>, k: int, v: string): map<int, string> {
    if k in m then m else m[k := v]
  }

  /** The loop that fills the range table: an `int` counter narrowed to the
      table's `int16_t` key.  Each of the first 2^16 entries lands under its
      narrowed number.  The table is the reply's entries under 0, 1, 2, ...
      exactly when there are at most 2^15 of them; after that keys turn negative. */
  method FillRanges(tokens: seq<string>) returns (m: map<int, string>)
    ensures forall i :: 0 <= i < |tokens| && i < UINT16_LIMIT ==> ToInt16(i) in m && m[ToInt16(i)] == tokens[i]
    ensures m == Numbered(tokens, 0) <==> |tokens| <= INT16_LIMIT
  {
    m := map[];
    for counter := 0 to |tokens|
      invariant forall i :: 0 <= i < counter && i < UINT16_LIMIT ==> ToInt16(i) in m && m[ToInt16(i)] == tokens[i]
      invariant forall k :: k in m ==> Slot(k) < counter
      invariant counter <= INT16_LIMIT ==> m == Numbered(tokens[..counter], 0)
    {
      KeyOf(counter);
      hide ToInt16, Numbered;
      if counter < INT16_LIMIT {
        NumberedSnoc(tokens[..counter], tokens[counter], 0);
        assert tokens[..counter + 1] == tokens[..counter] + [tokens[counter]];
      }
      m := Insert(m, ToInt16(counter), tokens[counter]);
    }
    assert tokens[..|tokens|] == tokens;
    if |tokens| > INT16_LIMIT {
      NumberedAt(tokens, 0);
      KeyOf(INT16_LIMIT);
      assert ToInt16(INT16_LIMIT) in m;
    }
  }

  /** The number of entries before the first one with this key. */
  function Slot(key: int): int {
    if key >= 0 then key else key + UINT16_LIMIT
  }

  lemma KeyOf(n: nat)
    ensures n < INT16_LIMIT ==> ToInt16(n) == n
    ensures INT16_LIMIT <= n < UINT16_LIMIT ==> ToInt16(n) == n - UINT16_LIMIT
    ensures n < UINT16_LIMIT ==> Slot(ToInt16(n)) == n
    ensures Slot(ToInt16(n)) <= n
  {
    assert -INT16_LIMIT <= ToInt16(n) < INT16_LIMIT;
  }

  /** `k++` on a `uint16_t`, and its value after `n` increments from 1. */
  function Next(k: int): int {
    (k + 1) % UINT16_LIMIT
  }

  function Key(n: nat): int {
    (n + 1) % UINT16_LIMIT
  }

  lemma KeySteps(n: nat)
    ensures Next(Key(n)) == Key(n + 1)
    ensures n + 1 < UINT16_LIMIT ==> Key(n) == n + 1
  {
  }

  /** The loop that fills the pulse table: a `uint16_t` key that starts at 1. */
  method FillFromOne(tokens: seq<string>) returns (m: map<int, string>)
    requires |tokens| < UINT16_LIMIT
    ensures m == Numbered(tokens, 1)
  {
    m := map[];
    var k := 1;
    for j := 0 to |tokens|
      invariant k == Key(j)
      invariant m == Numbered(tokens[..j], 1)
    {
      KeySteps(j);
      NumberedSnoc(tokens[..j], tokens[j], 1);
      assert tokens[..j + 1] == tokens[..j] + [tokens[j]];
      m := Insert(m, k, tokens[j]);
      k := Next(k);
    }
    assert tokens[..|tokens|] == tokens;
  }

  /** Tokens that are not blank, trimmed. */
  function NonBlank(tokens: seq<string>): seq<string> {
    if tokens == [] then []
    else
      var w, rest := Trim(tokens[|tokens| - 1]), NonBlank(tokens[..|tokens| - 1]);
      if w == [] then rest else rest + [w]
  }

  /** The loop that fills the averaging table: blank tokens take no number. */
  method FillWords(tokens: seq<string>) returns (m: map<int, string>)
    requires |tokens| < UINT16_LIMIT
    ensures m == Numbered(NonBlank(tokens), 1)
  {
    m := map[];
    var k := 1;
    assert tokens[..0] == [] && NonBlank([]) == [] && Numbered([], 1) == map[];
    hide Trim, NonBlank, Numbered, Insert, Next, Key;
    ghost var ws: seq<string> := [];
    for j := 0 to |tokens|
      invariant ws == NonBlank(tokens[..j]) && |ws| <= j
      invariant k == Key(|ws|) && m == Numbered(ws, 1)
    {
      assert tokens[..j + 1] == tokens[..j] + [tokens[j]];
      WordsSnoc(tokens[..j], tokens[j]);
      m, k, ws := AddWord(m, k, Trim(tokens[j]), ws);
    }
    assert tokens[..|tokens|] == tokens;
  }

  /** Only words that are not blank are entered. */
  method AddWord(m: map<int, string>, k: int, t: string, ghost ws: seq<string>)
    returns (m': map<int, string>, k': int, ghost ws': seq<string>)
    requires |ws| + 1 < UINT16_LIMIT && k == Key(|ws|) && m == Numbered(ws, 1)
    ensures ws' == if t == [] then ws else ws + [t]
    ensures k' == Key(|ws'|) && m' == Numbered(ws', 1)
  {
    hide Numbered, Next, Key;
    m', k', ws' := m, k, ws;
    if |t| > 0 {
      KeySteps(|ws|);
      NumberedSnoc(ws, t, 1);
      m', k', ws' := Insert(m, k, t), Next(k), ws + [t];
    }
  }

  lemma WordsSnoc(tokens: seq<string>, t: string)
    ensures NonBlank(tokens + [t]) == if Trim(t) == [] then NonBlank(tokens) else NonBlank(tokens) + [Trim(t)]
  {
    assert (tokens + [t])[..|tokens|] == tokens;
  }

  /** A reply holds at most one token more than it has bytes. */
  lemma {:induction false} TokenCount(s: string, sep: string)
    requires |sep| > 0
    ensures 1 <= |Tokens(s, sep)| <= |s| + 1
    decreases |s|
  {
    var p := Find(s, sep);
    if p >= 0 {
      TokenCount(s[p + |sep|..], sep);
    }
  }

  lemma {:induction false} TrimShortens(s: string)
    ensures |LTrim(s)| <= |s| && |RTrim(s)| <= |s|
    decreases |s|
  {
    if s != [] {
      TrimShortens(s[1..]);
      TrimShortens(s[..|s| - 1]);
    }
  }

  lemma NumberedEmptyIff(ts: seq<string>, first: int)
    ensures Numbered(ts, first) == map[] <==> ts == []
  {
    NumberedAt(ts, first);
    assert ts != [] ==> first in Numbered(ts, first);
  }
}
