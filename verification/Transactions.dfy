/** Threads sharing one power meter: the locks a transaction takes, every
    interleaving of their steps, and what the port sees. */
module Transactions {
  import opened Outcome

  // -------------------------------------------------------------------------
  // Locks and programs
  // -------------------------------------------------------------------------

  datatype Lock = CmdMutex | ReadLock | WriteLock

  function Rank(l: Lock): nat {
    match l case CmdMutex => 0 case ReadLock => 1 case WriteLock => 2
  }

  /** Operations on the port. */
  datatype Io = OpenPort | ClosePort | FlushIn | FlushOut | WriteBytes | ReadBytes

  datatype Action = Acquire(l: Lock) | Release(l: Lock) | Do(io: Io)

  type Program = seq<Action>

  /** The locks held before action `k`. */
  function Held(p: Program, k: nat): set<Lock>
    requires k <= |p|
  {
    if k == 0 then {}
    else match p[k - 1]
      case Acquire(l) => Held(p, k - 1) + {l}
      case Release(l) => Held(p, k - 1) - {l}
      case Do(_) => Held(p, k - 1)
  }

  /** The port operations before action `k`. */
  function IosOf(p: Program, k: nat): seq<Io>
    requires k <= |p|
  {
    if k == 0 then [] else IosOf(p, k - 1) + (if p[k - 1].Do? then [p[k - 1].io] else [])
  }

  /** Locks are taken in rank order and never twice, released only when held, and
      the port is touched only under the command mutex. */
  predicate ActionOk(p: Program, k: nat)
    requires k < |p|
  {
    match p[k]
    case Acquire(l) => forall h <- Held(p, k) :: Rank(h) < Rank(l)
    case Release(l) => l in Held(p, k)
    case Do(_) => CmdMutex in Held(p, k)
  }

  /** Reading and dropping input take the read lock, writing and dropping output the
      write lock. */
  predicate Guarded(io: Io, held: set<Lock>) {
    match io
    case OpenPort | ClosePort => true
    case FlushIn | ReadBytes => ReadLock in held
    case FlushOut | WriteBytes => WriteLock in held
  }

  /** Every operation of the program happens under its lock. */
  predicate AllGuarded(p: Program) {
    forall k :: 0 <= k < |p| ==> p[k].Do? ==> Guarded(p[k].io, Held(p, k))
  }

  /** A transaction: everything between taking and giving back the command mutex. */
  ghost predicate WellFormed(p: Program) {
    && |p| >= 2 && p[0] == Acquire(CmdMutex) && p[|p| - 1] == Release(CmdMutex)
    && (forall k :: 0 <= k < |p| ==> ActionOk(p, k))
    && (forall k :: 0 < k < |p| ==> CmdMutex in Held(p, k))
    && Held(p, |p|) == {}
  }

  // -------------------------------------------------------------------------
  // The transactions of the driver
  // -------------------------------------------------------------------------

  /** What the port facade does for one call: nothing but the operations, the
      operations under the read or the write lock, or under both. */
  datatype Segment =
    | Bare(ios: seq<Io>)
    | Reading(ios: seq<Io>)
    | Writing(ios: seq<Io>)
    | ReadingWriting(ios: seq<Io>)

  /** A segment whose locks fit its operations. */
  predicate Proper(s: Segment) {
    match s
    case Bare(ios) => forall i :: 0 <= i < |ios| ==> Guarded(ios[i], {CmdMutex})
    case Reading(ios) => forall i :: 0 <= i < |ios| ==> Guarded(ios[i], {CmdMutex, ReadLock})
    case Writing(ios) => forall i :: 0 <= i < |ios| ==> Guarded(ios[i], {CmdMutex, WriteLock})
    case ReadingWriting(ios) => true
  }

  predicate AllProper(segs: seq<Segment>) {
    forall i :: 0 <= i < |segs| ==> Proper(segs[i])
  }

  function Doing(ios: seq<Io>): Program {
    if ios == [] then [] else [Do(ios[0])] + Doing(ios[1..])
  }

  function Steps(s: Segment): Program {
    match s
    case Bare(ios) => Doing(ios)
    case Reading(ios) => [Acquire(ReadLock)] + Doing(ios) + [Release(ReadLock)]
    case Writing(ios) => [Acquire(WriteLock)] + Doing(ios) + [Release(WriteLock)]
    case ReadingWriting(ios) =>
      [Acquire(ReadLock), Acquire(WriteLock)] + Doing(ios) + [Release(WriteLock), Release(ReadLock)]
  }

  function Body(segs: seq<Segment>): Program {
    if segs == [] then [] else Body(segs[..|segs| - 1]) + Steps(segs[|segs| - 1])
  }

  /** `send_cmd` with its guard: whatever path it takes, and wherever an exception
      leaves it, the scoped locks make it a sequence of segments. */
  function Transaction(segs: seq<Segment>): Program {
    [Acquire(CmdMutex)] + Body(segs) + [Release(CmdMutex)]
  }

  /** The facade calls of `write_cmd`, up to the one that throws. */
  function WriteCmdCalls(closed: bool, upto: nat): seq<Segment> {
    var all := (if closed then [Bare([OpenPort])] else []) +
               [Reading([FlushIn]), Writing([FlushOut]), Writing([WriteBytes])];
    if upto < |all| then all[..upto] else all
  }

  function ResetCalls(upto: nat): seq<Segment> {
    if upto == 0 then [] else if upto == 1 then [Bare([ClosePort])] else [Bare([ClosePort, OpenPort])]
  }

  /** How a `send_cmd` went: where each stage stopped, and how many bytes each
      read brought. */
  datatype Path = Path(closed: bool, w1: nat, reset1: nat, w2: Option<nat>,
                       r1: Option<nat>, reset2: nat, r2: Option<nat>)

  function ReadCalls(r: Option<nat>): seq<Segment> {
    if r.None? then [] else [Reading(seq(r.value, _ => ReadBytes))]
  }

  function SecondWrite(w: Option<nat>): seq<Segment> {
    if w.Some? then WriteCmdCalls(false, w.value) else []
  }

  function SendCmdCalls(path: Path): seq<Segment> {
    WriteCmdCalls(path.closed, path.w1) + ResetCalls(path.reset1) + SecondWrite(path.w2)
    + ReadCalls(path.r1) + ResetCalls(path.reset2) + ReadCalls(path.r2)
  }

  function SendCmdProgram(path: Path): Program {
    Transaction(SendCmdCalls(path))
  }

  // -------------------------------------------------------------------------
  // Every transaction is well formed
  // -------------------------------------------------------------------------

  /** `p` leads from `from` to `to`, touching the port only under the command
      mutex, which it neither takes nor gives back, and if `strict` only under the
      operation's own lock. */
  ghost predicate Leads(p: Program, from: set<Lock>, to: set<Lock>, strict: bool) {
    if p == [] then from == to
    else
      match p[0]
      case Acquire(l) => l != CmdMutex && (forall h <- from :: Rank(h) < Rank(l)) &&
      Leads(p[1..], from + {l}, to, strict)
      case Release(l) => l != CmdMutex && l in from && Leads(p[1..], from - {l}, to, strict)
      case Do(io) => CmdMutex in from && (strict ==> Guarded(io, from)) && Leads(p[1..], from, to, strict)
  }

  lemma {:induction false} LeadsAppend(p: Program, q: Program, a: set<Lock>, b: set<Lock>, c: set<Lock>, strict: bool)
    requires Leads(p, a, b, strict) && Leads(q, b, c, strict)
    ensures Leads(p + q, a, c, strict)
    decreases |p|
  {
    if p == [] {
      assert p + q == q;
    } else {
      assert (p + q)[1..] == p[1..] + q && (p + q)[0] == p[0];
      match p[0] {
        case Acquire(l) => LeadsAppend(p[1..], q, a + {l}, b, c, strict);
        case Release(l) => LeadsAppend(p[1..], q, a - {l}, b, c, strict);
        case Do(_) => LeadsAppend(p[1..], q, a, b, c, strict);
      }
    }
  }

  lemma {:induction false} DoingLeads(ios: seq<Io>, held: set<Lock>, strict: bool)
    requires CmdMutex in held && (strict ==> forall i :: 0 <= i < |ios| ==> Guarded(ios[i], held))
    ensures Leads(Doing(ios), held, held, strict)
  {
    if ios != [] {
      DoingLeads(ios[1..], held, strict);
      var p := Doing(ios);
      assert p[0] == Do(ios[0]) && p[1..] == Doing(ios[1..]);
    }
  }

  lemma OneLeads(a: Action, from: set<Lock>, to: set<Lock>, strict: bool)
    requires match a
      case Acquire(l) => l != CmdMutex && (forall h <- from :: Rank(h) < Rank(l)) && to == from + {l}
      case Release(l) => l != CmdMutex && l in from && to == from - {l}
      case Do(io) => CmdMutex in from && (strict ==> Guarded(io, from)) && to == from
    ensures Leads([a], from, to, strict)
  {
    assert [a][1..] == [];
    assert Leads([], to, to, strict);
  }

  lemma StepsLeads(s: Segment, strict: bool)
    requires strict ==> Proper(s)
    ensures Leads(Steps(s), {CmdMutex}, {CmdMutex}, strict)
  {
    hide Leads, Doing;
    var c := {CmdMutex};
    match s {
      case Bare(ios) => DoingLeads(ios, c, strict);
      case Reading(ios) =>
        assert c + {ReadLock} == {CmdMutex, ReadLock};
        UnderLock(ReadLock, ios, c, strict);
      case Writing(ios) =>
        assert c + {WriteLock} == {CmdMutex, WriteLock};
        UnderLock(WriteLock, ios, c, strict);
      case ReadingWriting(ios) =>
        var r := {CmdMutex, ReadLock};
        var inner := [Acquire(WriteLock)] + Doing(ios) + [Release(WriteLock)];
        UnderLock(WriteLock, ios, r, strict);
        OneLeads(Acquire(ReadLock), c, r, strict);
        assert r - {ReadLock} == c;
        OneLeads(Release(ReadLock), r, c, strict);
        LeadsAppend([Acquire(ReadLock)], inner, c, r, r, strict);
        LeadsAppend([Acquire(ReadLock)] + inner, [Release(ReadLock)], c, r, c, strict);
        assert Steps(s) == [Acquire(ReadLock)] + inner + [Release(ReadLock)];
    }
  }

  lemma UnderLock(l: Lock, ios: seq<Io>, held: set<Lock>, strict: bool)
    requires l != CmdMutex && CmdMutex in held && forall h <- held :: Rank(h) < Rank(l)
    requires strict ==> forall i :: 0 <= i < |ios| ==> Guarded(ios[i], held + {l})
    ensures Leads([Acquire(l)] + Doing(ios) + [Release(l)], held, held, strict)
  {
    hide Leads, Doing;
    assert l !in held;
    var inside := held + {l};
    assert inside - {l} == held;
    OneLeads(Acquire(l), held, inside, strict);
    DoingLeads(ios, inside, strict);
    OneLeads(Release(l), inside, held, strict);
    LeadsAppend([Acquire(l)], Doing(ios), held, inside, inside, strict);
    LeadsAppend([Acquire(l)] + Doing(ios), [Release(l)], held, inside, held, strict);
  }

  lemma {:induction false} BodyLeads(segs: seq<Segment>, strict: bool)
    requires strict ==> AllProper(segs)
    ensures Leads(Body(segs), {CmdMutex}, {CmdMutex}, strict)
  {
    if segs != [] {
      BodyLeads(segs[..|segs| - 1], strict);
      StepsLeads(segs[|segs| - 1], strict);
      hide Leads, Steps;
      LeadsAppend(Body(segs[..|segs| - 1]), Steps(segs[|segs| - 1]), {CmdMutex}, {CmdMutex}, {CmdMutex}, strict);
    }
  }

  /** Locks held inside a transaction follow its body. */
  lemma {:induction false} HeldInside(p: Program, n: nat, from: set<Lock>, to: set<Lock>, strict: bool)
    requires n <= |p| - 1 && p[|p| - 1] == Release(CmdMutex)
    requires Held(p, n) == from && CmdMutex in from && Leads(p[n..|p| - 1], from, to, strict)
    ensures forall k :: n <= k < |p| - 1 ==> ActionOk(p, k)
    ensures forall k :: n <= k < |p| ==> CmdMutex in Held(p, k)
    ensures strict ==> forall k :: n <= k < |p| ==> p[k].Do? ==> Guarded(p[k].io, Held(p, k))
    ensures Held(p, |p| - 1) == to
    decreases |p| - n
  {
    var rest := p[n..|p| - 1];
    if n < |p| - 1 {
      assert rest[0] == p[n] && rest[1..] == p[n + 1..|p| - 1];
      var next := match p[n] case Acquire(l) => from + {l} case Release(l) => from - {l} case Do(_) => from;
      assert Held(p, n + 1) == next && CmdMutex in next;
      HeldInside(p, n + 1, next, to, strict);
    } else {
      assert rest == [];
    }
  }

  /** Any sequence of facade calls under the command mutex is a well-formed
      transaction, and if the calls lock what they should, so does the transaction. */
  lemma TransactionWellFormed(segs: seq<Segment>)
    ensures WellFormed(Transaction(segs))
    ensures AllProper(segs) ==> AllGuarded(Transaction(segs))
  {
    var p, strict := Transaction(segs), AllProper(segs);
    BodyLeads(segs, strict);
    assert p[1..|p| - 1] == Body(segs);
    assert Held(p, 0) == {} && Held(p, 1) == {CmdMutex};
    hide Leads, Body;
    HeldInside(p, 1, {CmdMutex}, {CmdMutex}, strict);
    assert ActionOk(p, 0);
    assert Held(p, |p| - 1) == {CmdMutex};
    assert Held(p, |p|) == {};
  }

  /** Every path of `send_cmd` is such a transaction: input is read and dropped under
      the read lock only, output written and dropped under the write lock only. */
  lemma SendCmdWellFormed(path: Path)
    ensures WellFormed(SendCmdProgram(path)) && AllGuarded(SendCmdProgram(path))
  {
    hide WellFormed, AllGuarded, WriteCmdCalls, ResetCalls, ReadCalls;
    ProperCalls(path);
    TransactionWellFormed(SendCmdCalls(path));
  }

  lemma ProperCalls(path: Path)
    ensures AllProper(SendCmdCalls(path))
  {
    hide WriteCmdCalls;
    ProperWrite(path.closed, path.w1);
    if path.w2.Some? {
      ProperWrite(false, path.w2.value);
    }
  }

  lemma ProperWrite(closed: bool, upto: nat)
    ensures AllProper(WriteCmdCalls(closed, upto))
  {
  }

  // -------------------------------------------------------------------------
  // What a transaction does to the port
  // -------------------------------------------------------------------------

  function Ios(segs: seq<Segment>): seq<Io> {
    if segs == [] then [] else Ios(segs[..|segs| - 1]) + segs[|segs| - 1].ios
  }

  lemma {:induction false} IosAppend(a: seq<Segment>, b: seq<Segment>)
    ensures Ios(a + b) == Ios(a) + Ios(b)
  {
    if b == [] {
      assert a + b == a;
    } else {
      var k := |b| - 1;
      IosAppend(a, b[..k]);
      assert (a + b)[..|a + b| - 1] == a + b[..k];
    }
  }

  lemma {:induction false} IosOfAppend(p: Program, q: Program, k: nat)
    requires k <= |q|
    ensures IosOf(p + q, |p| + k) == IosOf(p, |p|) + IosOf(q, k)
  {
    if k == 0 {
      IosOfPrefix(p, q, |p|);
    } else {
      IosOfAppend(p, q, k - 1);
    }
  }

  lemma {:induction false} IosOfPrefix(p: Program, q: Program, k: nat)
    requires k <= |p|
    ensures IosOf(p + q, k) == IosOf(p, k)
  {
    if k > 0 {
      IosOfPrefix(p, q, k - 1);
    }
  }

  lemma {:induction false} DoingIos(ios: seq<Io>)
    ensures IosOf(Doing(ios), |Doing(ios)|) == ios
  {
    if ios != [] {
      DoingIos(ios[1..]);
      var one := [Do(ios[0])];
      assert IosOf(one, 0) == [] && IosOf(one, 1) == [ios[0]];
      IosOfAppend(one, Doing(ios[1..]), |Doing(ios[1..])|);
    }
  }

  /** Taking and giving back locks is no operation on the port. */
  lemma {:induction false} LocksIos(p: Program, k: nat)
    requires k <= |p| && forall i :: 0 <= i < |p| ==> !p[i].Do?
    ensures IosOf(p, k) == []
  {
    if k > 0 {
      LocksIos(p, k - 1);
    }
  }

  lemma BetweenIos(a: Program, ios: seq<Io>, b: Program)
    requires forall i :: 0 <= i < |a| ==> !a[i].Do?
    requires forall i :: 0 <= i < |b| ==> !b[i].Do?
    ensures IosOf(a + Doing(ios) + b, |a + Doing(ios) + b|) == ios
  {
    hide IosOf, Doing;
    LocksIos(a, |a|);
    LocksIos(b, |b|);
    DoingIos(ios);
    IosOfAppend(a, Doing(ios), |Doing(ios)|);
    IosOfAppend(a + Doing(ios), b, |b|);
    assert [] + ios + [] == ios;
  }

  lemma StepsIos(s: Segment)
    ensures IosOf(Steps(s), |Steps(s)|) == s.ios
  {
    hide IosOf, Doing;
    match s {
      case Bare(ios) => DoingIos(ios);
      case Reading(ios) => BetweenIos([Acquire(ReadLock)], ios, [Release(ReadLock)]);
      case Writing(ios) => BetweenIos([Acquire(WriteLock)], ios, [Release(WriteLock)]);
      case ReadingWriting(ios) =>
        BetweenIos([Acquire(ReadLock), Acquire(WriteLock)], ios, [Release(WriteLock), Release(ReadLock)]);
    }
  }

  lemma {:induction false} BodyIos(segs: seq<Segment>)
    ensures IosOf(Body(segs), |Body(segs)|) == Ios(segs)
  {
    if segs == [] {
    } else {
      hide IosOf, Steps;
      var init, last := segs[..|segs| - 1], segs[|segs| - 1];
      BodyIos(init);
      StepsIos(last);
      IosOfAppend(Body(init), Steps(last), |Steps(last)|);
    }
  }

  lemma TransactionIos(segs: seq<Segment>)
    ensures IosOf(Transaction(segs), |Transaction(segs)|) == Ios(segs)
  {
    hide IosOf, Body, Ios;
    var a, p, b := [Acquire(CmdMutex)], Body(segs), [Release(CmdMutex)];
    BodyIos(segs);
    LocksIos(a, 1);
    LocksIos(b, 1);
    IosOfAppend(a, p, |p|);
    IosOfAppend(a + p, b, 1);
    assert |a + p| == 1 + |p| && |a + p + b| == |a + p| + 1;
    assert [] + Ios(segs) + [] == Ios(segs);
  }

  /** The operations that the log tells of. */
  function Telling(ios: seq<Io>): seq<Io> {
    if ios == [] then []
    else
      var io := ios[|ios| - 1];
      Telling(ios[..|ios| - 1]) + (if io == WriteBytes || io == ReadBytes || io == ClosePort then [io] else [])
  }

  lemma {:induction false} TellingAppend(a: seq<Io>, b: seq<Io>)
    ensures Telling(a + b) == Telling(a) + Telling(b)
  {
    if b == [] {
      assert a + b == a;
    } else {
      var k := |b| - 1;
      TellingAppend(a, b[..k]);
      assert (a + b)[..|a + b| - 1] == a + b[..k];
    }
  }

  /** Every write comes right behind dropping what is pending in both directions. */
  predicate Flushed(ios: seq<Io>) {
    forall i :: 0 <= i < |ios| ==> FlushedAt(ios, i)
  }

  predicate FlushedAt(ios: seq<Io>, i: nat)
    requires i < |ios|
  {
    ios[i] == WriteBytes ==> i >= 2 && ios[i - 1] == FlushOut && ios[i - 2] == FlushIn
  }

  lemma FlushedAppend(a: seq<Io>, b: seq<Io>)
    requires Flushed(a) && Flushed(b)
    ensures Flushed(a + b)
  {
    var c := a + b;
    forall i | 0 <= i < |c|
      ensures FlushedAt(c, i)
    {
      if i < |a| {
        assert FlushedAt(a, i);
      } else {
        assert FlushedAt(b, i - |a|);
      }
    }
  }

  function Once(io: Io, yes: bool): seq<Io> {
    if yes then [io] else []
  }

  function WriteCalls(closed: bool): nat {
    if closed then 4 else 3
  }

  /** One piece of a transaction. */
  ghost predicate Tells(segs: seq<Segment>, told: seq<Io>) {
    Telling(Ios(segs)) == told && Flushed(Ios(segs))
  }

  lemma TellsAppend(a: seq<Segment>, x: seq<Io>, b: seq<Segment>, y: seq<Io>)
    requires Tells(a, x) && Tells(b, y)
    ensures Tells(a + b, x + y)
  {
    IosAppend(a, b);
    TellingAppend(Ios(a), Ios(b));
    FlushedAppend(Ios(a), Ios(b));
  }

  /** No operation among these is told of. */
  lemma {:induction false} Untold(ios: seq<Io>)
    requires forall i :: 0 <= i < |ios| ==> ios[i] == OpenPort || ios[i] == FlushIn || ios[i] == FlushOut
    ensures Telling(ios) == []
  {
    if ios != [] {
      Untold(ios[..|ios| - 1]);
    }
  }

  lemma {:induction false} ReadsTold(n: nat)
    ensures Telling(seq(n, _ => ReadBytes)) == seq(n, _ => ReadBytes)
  {
    if n > 0 {
      ReadsTold(n - 1);
      assert seq(n, _ => ReadBytes)[..n - 1] == seq(n - 1, _ => ReadBytes);
    }
  }

  lemma {:induction false} SingleIos(segs: seq<Segment>, ios: seq<Io>)
    requires |segs| == |ios| && forall i :: 0 <= i < |segs| ==> segs[i].ios == [ios[i]]
    ensures Ios(segs) == ios
  {
    if segs != [] {
      var k := |segs| - 1;
      SingleIos(segs[..k], ios[..k]);
      assert segs[k].ios == [ios[k]];
    }
  }

  lemma OneIos(s: Segment)
    ensures Ios([s]) == s.ios
  {
    assert [s][..0] == [] && Ios([]) == [];
    assert Ios([s]) == Ios([s][..0]) + s.ios;
  }

  lemma WriteTells(closed: bool, upto: nat)
    ensures Tells(WriteCmdCalls(closed, upto), Once(WriteBytes, upto >= WriteCalls(closed)))
  {
    hide Ios, WriteCmdCalls, Telling;
    var before := Dropping(closed);
    WriteIos(closed, upto);
    if upto < WriteCalls(closed) {
      Untold(before[..upto]);
    } else {
      Untold(before);
      TellingAppend(before, [WriteBytes]);
      TellOne(WriteBytes);
    }
  }

  /** What is done before the write. */
  function Dropping(closed: bool): seq<Io> {
    if closed then [OpenPort, FlushIn, FlushOut] else [FlushIn, FlushOut]
  }

  lemma WriteIos(closed: bool, upto: nat)
    ensures Ios(WriteCmdCalls(closed, upto)) ==
            if upto >= WriteCalls(closed) then Dropping(closed) + [WriteBytes] else Dropping(closed)[..upto]
  {
    hide Ios;
    var ios := if upto >= WriteCalls(closed) then Dropping(closed) + [WriteBytes] else Dropping(closed)[..upto];
    SingleIos(WriteCmdCalls(closed, upto), ios);
  }

  lemma TellOne(io: Io)
    ensures Telling([io]) == if io == WriteBytes || io == ReadBytes || io == ClosePort then [io] else []
  {
    assert [io][..0] == [] && Telling([]) == [];
    assert Telling([io]) ==
           Telling([io][..0]) + if io == WriteBytes || io == ReadBytes || io == ClosePort then [io] else [];
  }

  lemma ResetTells(upto: nat)
    ensures Tells(ResetCalls(upto), Once(ClosePort, upto > 0))
  {
    assert Ios([]) == [] && Telling([]) == [];
    hide Ios, Telling;
    if upto == 1 {
      OneIos(Bare([ClosePort]));
      TellOne(ClosePort);
    } else if upto > 1 {
      OneIos(Bare([ClosePort, OpenPort]));
      TellOne(ClosePort);
      TellOne(OpenPort);
      TellingAppend([ClosePort], [OpenPort]);
      assert [ClosePort, OpenPort] == [ClosePort] + [OpenPort];
    }
  }

  function Bytes(r: Option<nat>): seq<Io> {
    if r.None? then [] else seq(r.value, _ => ReadBytes)
  }

  lemma ReadTells(r: Option<nat>)
    ensures Tells(ReadCalls(r), Bytes(r))
  {
    if r.Some? {
      OneIos(Reading(Bytes(r)));
      ReadsTold(r.value);
    }
  }

  /** What a run of `send_cmd` does to the port: the writes, resets and reads of its
      path in order, each write right behind dropping what is pending. */
  lemma SendCmdTells(path: Path)
    ensures var p := SendCmdProgram(path);
            && Telling(IosOf(p, |p|)) == Told(path)
            && Flushed(IosOf(p, |p|))
  {
    hide Tells, WriteCmdCalls, ResetCalls, ReadCalls, Once, Bytes;
    var a := WriteCmdCalls(path.closed, path.w1);
    var b := a + ResetCalls(path.reset1);
    var c := b + SecondWrite(path.w2);
    var d := c + ReadCalls(path.r1);
    var e := d + ResetCalls(path.reset2);
    var f := e + ReadCalls(path.r2);
    WriteTells(path.closed, path.w1);
    ResetTells(path.reset1);
    SecondTells(path.w2);
    ReadTells(path.r1);
    ResetTells(path.reset2);
    ReadTells(path.r2);
    TellsAppend(a, Wrote(path), ResetCalls(path.reset1), Once(ClosePort, path.reset1 > 0));
    var b' := Wrote(path) + Once(ClosePort, path.reset1 > 0);
    TellsAppend(b, b', SecondWrite(path.w2), Rewrote(path.w2));
    var c' := b' + Rewrote(path.w2);
    TellsAppend(c, c', ReadCalls(path.r1), Bytes(path.r1));
    var d' := c' + Bytes(path.r1);
    TellsAppend(d, d', ResetCalls(path.reset2), Once(ClosePort, path.reset2 > 0));
    var e' := d' + Once(ClosePort, path.reset2 > 0);
    TellsAppend(e, e', ReadCalls(path.r2), Bytes(path.r2));
    TransactionIos(f);
    assert Tells(SendCmdCalls(path), Told(path));
    TellsMeans(SendCmdCalls(path), Told(path));
  }

  lemma TellsMeans(segs: seq<Segment>, told: seq<Io>)
    requires Tells(segs, told)
    ensures Telling(Ios(segs)) == told && Flushed(Ios(segs))
  {
  }

  function Wrote(path: Path): seq<Io> {
    Once(WriteBytes, path.w1 >= WriteCalls(path.closed))
  }

  function Rewrote(w: Option<nat>): seq<Io> {
    Once(WriteBytes, w.Some? && w.value >= WriteCalls(false))
  }

  lemma SecondTells(w: Option<nat>)
    ensures Tells(SecondWrite(w), Rewrote(w))
  {
    if w.Some? {
      WriteTells(false, w.value);
    }
  }

  function Told(path: Path): seq<Io> {
    Wrote(path) + Once(ClosePort, path.reset1 > 0) + Rewrote(path.w2)
    + Bytes(path.r1) + Once(ClosePort, path.reset2 > 0) + Bytes(path.r2)
  }
}
