/** The utility that prints an option table as text, by overwriting the last
    comma in place. */
module MapText {
  import opened Outcome
  import opened Text
  import opened Decimal

  /** An output stream: what has been written, and where the next write goes. */
  datatype Stream = Stream(text: string, at: nat)

  predicate Sound(o: Stream) {
    o.at <= |o.text|
  }

  /** `os << s`: writes over what is there, then on. */
  function Put(o: Stream, s: string): (r: Stream)
    requires Sound(o)
    ensures Sound(r)
  {
    var end := o.at + |s|;
    Stream(o.text[..o.at] + s + (if end < |o.text| then o.text[end..] else []), end)
  }

  /** `os.seekp(-1, os.cur)`, for a position after the first. */
  function Back(o: Stream): (r: Stream)
    requires Sound(o)
    ensures Sound(r)
  {
    if o.at == 0 then o else o.(at := o.at - 1)
  }

  /** An entry as printed. */
  function EntryText(e: (int, string)): string {
    "\"" + DecInt(e.0) + "\":\"" + e.1 + "\""
  }

  function Commas(es: seq<(int, string)>): string {
    if es == [] then "" else Commas(es[..|es| - 1]) + EntryText(es[|es| - 1]) + ","
  }

  /** The reference: entries separated by commas, in braces. */
  function Joined(es: seq<(int, string)>): string
    requires es != []
  {
    if |es| == 1 then EntryText(es[0]) else EntryText(es[0]) + "," + Joined(es[1..])
  }

  /** `serial_map`, entries in key order.  A table with entries comes out as the
      comma-joined reference in braces; an empty one loses its opening brace.  What
      is printed can be read back exactly when there is something to print. */
  method SerialMap(es: seq<(int, string)>) returns (res: string)
    ensures es != [] ==> res == "{" + Joined(es) + "}"
    ensures es == [] ==> res == "}"
    ensures (forall e <- es :: Printable(e)) ==> (ReadMap(res) == Some(es) <==> es != [])
  {
    var os := Put(Stream("", 0), "{");
    OpeningText(es);
    hide *;
    for i := 0 to |es|
      invariant os == Written(es, i)
    {
      EntryWritten(es, i);
      os := Put(os, EntryText(es[i]) + ",");
    }
    ClosingText(es);
    os := Back(os);
    os := Put(os, "}");
    res := os.text;
    if forall e <- es :: Printable(e) {
      ReadBackIff(es, res);
    }
  }

  /** The stream after the first `i` entries. */
  function Written(es: seq<(int, string)>, i: nat): (o: Stream)
    requires i <= |es|
    ensures Sound(o)
  {
    AtEnd("{" + Commas(es[..i]))
  }

  lemma OpeningText(es: seq<(int, string)>)
    ensures Put(Stream("", 0), "{") == Written(es, 0)
  {
    assert es[..0] == [] && "{" + "" == "{";
  }

  lemma EntryWritten(es: seq<(int, string)>, i: nat)
    requires i < |es|
    ensures Put(Written(es, i), EntryText(es[i]) + ",") == Written(es, i + 1)
  {
    hide EntryText, Commas, Put;
    var before, entry := Commas(es[..i]), EntryText(es[i]);
    CommasSnoc(es[..i], es[i]);
    assert es[..i + 1] == es[..i] + [es[i]];
    PutAtEnd("{" + before, entry + ",");
    assert "{" + before + (entry + ",") == "{" + (before + entry + ",");
  }

  lemma ClosingText(es: seq<(int, string)>)
    ensures Put(Back(Written(es, |es|)), "}").text == if es == [] then "}" else "{" + Joined(es) + "}"
  {
    assert es[..|es|] == es;
    assert Written(es, |es|) == AtEnd("{" + Commas(es));
    if es == [] {
      NothingWritten();
    } else {
      hide *;
      CommasIsJoined(es);
      ClosingBrace(Joined(es));
    }
  }

  lemma NothingWritten()
    ensures Put(Back(AtEnd("{" + Commas([]))), "}").text == "}"
  {
    assert "{" + Commas([]) == "{" == "" + ['{'] && "" + "}" == "}";
    hide Put, Back;
    OverwriteLast("", '{', "}");
  }

  lemma ClosingBrace(text: string)
    ensures Put(Back(AtEnd("{" + (text + ","))), "}").text == "{" + text + "}"
  {
    hide Put, Back;
    OverwriteLast("{" + text, ',', "}");
    assert "{" + (text + ",") == "{" + text + [','];
  }

  /** A stream that is written at its end. */
  function AtEnd(text: string): Stream {
    Stream(text, |text|)
  }

  lemma PutAtEnd(text: string, s: string)
    ensures Put(AtEnd(text), s) == AtEnd(text + s)
  {
    assert text[..|text|] == text;
    assert text + s + [] == text + s;
  }

  /** Stepping back one and writing one character replaces the last one. */
  lemma OverwriteLast(text: string, last: char, s: string)
    requires |s| == 1
    ensures Put(Back(AtEnd(text + [last])), s) == AtEnd(text + s)
  {
    var all := text + [last];
    assert all[..|text|] == text;
    assert text + s + [] == text + s;
  }

  lemma CommasSnoc(es: seq<(int, string)>, e: (int, string))
    ensures Commas(es + [e]) == Commas(es) + EntryText(e) + ","
  {
    hide EntryText;
    assert (es + [e])[..|es|] == es;
  }

  lemma {:induction false} CommasIsJoined(es: seq<(int, string)>)
    requires es != []
    ensures Commas(es) == Joined(es) + ","
  {
    hide EntryText;
    if |es| == 1 {
      assert es[..0] == [];
      assert Commas([]) == "" && "" + EntryText(es[0]) == EntryText(es[0]);
    } else {
      var k := |es| - 1;
      CommasIsJoined(es[..k]);
      JoinedSnoc(es[..k], es[k]);
      assert es == es[..k] + [es[k]];
    }
  }

  lemma {:induction false} JoinedSnoc(es: seq<(int, string)>, e: (int, string))
    requires es != []
    ensures Joined(es + [e]) == Joined(es) + "," + EntryText(e)
  {
    hide EntryText;
    var all := es + [e];
    if |es| == 1 {
      assert all[1..] == [e];
    } else {
      JoinedSnoc(es[1..], e);
      assert all[1..] == es[1..] + [e];
      var first, rest, last := EntryText(es[0]) + ",", Joined(es[1..]), "," + EntryText(e);
      assert first + (rest + last) == (first + rest) + last;
    }
  }

  // -------------------------------------------------------------------------
  // A reader for the printed form
  // -------------------------------------------------------------------------

  /** Splits at the first quote. */
  function UntilQuote(s: string): Option<(string, string)> {
    var p := Find(s, "\"");
    if p < 0 then None else Some((s[..p], s[p + 1..]))
  }

  /** Reads one entry: key and value in quotes with a colon between. */
  function ReadEntry(s: string): Option<((int, string), string)> {
    if s == [] || s[0] != '"' then None
    else
      var key := UntilQuote(s[1..]);
      if key.None? then None
      else
        var k, rest := StoL(key.value.0), key.value.1;
        if !k.Ok? || |rest| < 2 || rest[..2] != ":\"" then None
        else
          var v := UntilQuote(rest[2..]);
          if v.None? then None else Some(((k.value, v.value.0), v.value.1))
  }

  function ReadEntries(s: string): Option<seq<(int, string)>>
    decreases |s|
  {
    var e := ReadEntry(s);
    if e.None? then None
    else
      var rest := e.value.1;
      if rest == "}" then Some([e.value.0])
      else if rest == [] || rest[0] != ',' || |rest| >= |s| then None
      else
        var more := ReadEntries(rest[1..]);
        if more.None? then None else Some([e.value.0] + more.value)
  }

  function ReadMap(s: string): Option<seq<(int, string)>> {
    if s == [] || s[0] != '{' then None else ReadEntries(s[1..])
  }

  predicate Printable(e: (int, string)) {
    IsInt32(e.0) && '"' !in e.1
  }

  lemma QuoteFound(a: string, rest: string)
    requires '"' !in a
    ensures UntilQuote(a + "\"" + rest) == Some((a, rest))
  {
    var s := a + "\"" + rest;
    assert OccursAt(s, "\"", |a|);
    assert forall i :: OccursAt(s, "\"", i) ==> s[i..i + 1][0] == '"' && s[i] == '"';
    assert forall i :: 0 <= i < |a| ==> s[i] == a[i] && a[i] in a;
    assert Find(s, "\"") == |a|;
    assert s[..|a|] == a && s[|a| + 1..] == rest;
  }

  lemma EntryRead(e: (int, string), rest: string)
    requires Printable(e)
    ensures ReadEntry(EntryText(e) + rest) == Some((e, rest))
  {
    var key := DecInt(e.0);
    var s := EntryText(e) + rest;
    var tail := ":\"" + (e.1 + "\"" + rest);
    assert s[0] == '"' && s[1..] == key + "\"" + tail;
    DecIntHoldsNo(e.0, '"');
    StoLInvertsPrint(e.0);
    QuoteFound(key, tail);
    QuoteFound(e.1, rest);
    assert tail[..2] == ":\"" && tail[2..] == e.1 + "\"" + rest;
    hide UntilQuote, StoL, DecInt;
  }

  lemma {:induction false} EntriesRead(es: seq<(int, string)>)
    requires es != [] && forall e <- es :: Printable(e)
    ensures ReadEntries(Joined(es) + "}") == Some(es)
    decreases |es|
  {
    hide *;
    var e, rest := es[0], es[1..];
    JoinedFront(es);
    assert es == [e] + rest && e in es;
    if rest == [] {
      EntryRead(e, "}");
      ReadLast(EntryText(e) + "}", e);
      assert es == [e];
    } else {
      EntriesRead(rest);
      EntryThenMore(e, Joined(rest) + "}", rest);
    }
  }

  lemma EntryThenMore(e: (int, string), more: string, rest: seq<(int, string)>)
    requires Printable(e) && ReadEntries(more) == Some(rest)
    ensures ReadEntries(EntryText(e) + ("," + more)) == Some([e] + rest)
  {
    hide *;
    EntryLength(e, "," + more);
    EntryRead(e, "," + more);
    ReadMore(EntryText(e) + ("," + more), e, more);
  }

  lemma JoinedFront(es: seq<(int, string)>)
    requires es != []
    ensures |es| == 1 ==> Joined(es) == EntryText(es[0])
    ensures |es| > 1 ==> Joined(es) + "}" == EntryText(es[0]) + ("," + (Joined(es[1..]) + "}"))
  {
    hide EntryText;
    if |es| > 1 {
      Associate(EntryText(es[0]) + ",", Joined(es[1..]), "}");
      Associate(EntryText(es[0]), ",", Joined(es[1..]) + "}");
    }
  }

  lemma ReadLast(s: string, e: (int, string))
    requires ReadEntry(s) == Some((e, "}"))
    ensures ReadEntries(s) == Some([e])
  {
    hide ReadEntry;
  }

  lemma EntryLength(e: (int, string), rest: string)
    ensures |rest| < |EntryText(e) + rest|
  {
  }

  lemma ReadMore(s: string, e: (int, string), more: string)
    requires ReadEntry(s) == Some((e, "," + more)) && |more| + 1 < |s|
    ensures ReadEntries(more).Some? ==> ReadEntries(s) == Some([e] + ReadEntries(more).value)
  {
    hide ReadEntry;
    var rest := "," + more;
    assert rest[1..] == more && rest[0] == ',' && rest != "}";
  }

  /** What `serial_map` prints can be read back exactly when there is something
      to print. */
  lemma ReadBackIff(es: seq<(int, string)>, res: string)
    requires forall e <- es :: Printable(e)
    requires es != [] ==> res == "{" + Joined(es) + "}"
    requires es == [] ==> res == "}"
    ensures ReadMap(res) == Some(es) <==> es != []
  {
    hide Joined, ReadEntries, Printable;
    if es != [] {
      EntriesRead(es);
      assert res[0] == '{' && res[1..] == Joined(es) + "}";
    } else {
      assert res[0] == '}';
    }
  }
}
