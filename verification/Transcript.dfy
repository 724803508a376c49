/** A device conversation with the noise removed: the messages the kernel took
    whole and the lines the driver got, in order. */
module Transcript {
  import opened Outcome
  import opened SerialPort
  import opened DeviceLine

  datatype Item = Msg(text: string) | Line(bytes: string)

  function Visible(e: Event): seq<Item> {
    if e.Sent? && e.n == |e.msg| then [Msg(e.msg)]
    else if e.Heard? && e.ok && e.bytes != [] then [Line(e.bytes)]
    else []
  }

  function Digest(log: seq<Event>): seq<Item> {
    if log == [] then [] else Digest(log[..|log| - 1]) + Visible(log[|log| - 1])
  }

  lemma DigestSnoc(log: seq<Event>, e: Event)
    ensures Digest(log + [e]) == Digest(log) + Visible(e)
  {
    assert (log + [e])[..|log|] == log;
  }

  lemma {:induction false} DigestAppend(log: seq<Event>, t: seq<Event>)
    ensures Digest(log + t) == Digest(log) + Digest(t)
  {
    assert Digest([]) == [];
    hide *;
    if t == [] {
      assert log + t == log;
    } else {
      var k := |t| - 1;
      DigestAppend(log, t[..k]);
      assert t == t[..k] + [t[k]];
      assert log + t == (log + t[..k]) + [t[k]];
      DigestSnoc(log + t[..k], t[k]);
      DigestSnoc(t[..k], t[k]);
      Associate(Digest(log), Digest(t[..k]), Visible(t[k]));
    }
  }

  lemma {:induction false} PiecesInvisible(t: seq<Event>, msg: string)
    requires OnlyPieces(t, msg)
    ensures Digest(t) == []
  {
    if t != [] {
      var k := |t| - 1;
      PiecesInvisible(t[..k], msg);
      assert t == t[..k] + [t[k]];
      DigestSnoc(t[..k], t[k]);
    }
  }

  /** A command, retried or not, shows up once if it succeeded and not at all
      if it did not. */
  lemma RetryDigest(t: seq<Event>, msg: string, done: bool)
    requires RetryTrace(t, msg, done)
    ensures Digest(t) == if done then [Msg(msg)] else []
  {
    hide *;
    if done {
      var p, last := DoneShape(t, msg);
      PiecesInvisible(p, msg);
      WholeVisible(last, msg);
      DigestSnoc(p, last);
    } else {
      NotDoneShape(t, msg);
      PiecesInvisible(t, msg);
    }
  }

  lemma WholeVisible(e: Event, msg: string)
    requires Attempt(e, msg, true)
    ensures Visible(e) == [Msg(msg)]
  {
  }
}
