/** All interleavings of any number of threads, each issuing any number of
    transactions: the port sees whole transactions one after the other, and the
    threads never block each other for good. */
module Interleaving {
  import opened Outcome
  import opened Transactions

  /** The transactions each thread issues, in order. */
  type Plan = seq<seq<Program>>

  ghost predicate GoodPlan(plan: Plan) {
    forall t, i :: 0 <= t < |plan| && 0 <= i < |plan[t]| ==> WellFormed(plan[t][i])
  }

  /** A thread is about to do action `pos` of its transaction `txn`. */
  datatype Spot = Spot(txn: nat, pos: nat)

  datatype State = State(owner: map<Lock, nat>, at: seq<Spot>, log: seq<(nat, Io)>, done: seq<(nat, nat)>)

  ghost predicate Init(plan: Plan, s: State) {
    && s.owner == map[] && s.log == [] && s.done == []
    && |s.at| == |plan| && forall t :: 0 <= t < |plan| ==> s.at[t] == Spot(0, 0)
  }

  predicate Busy(plan: Plan, s: State, t: nat) {
    t < |plan| && t < |s.at| && s.at[t].txn < |plan[t]| && s.at[t].pos < |plan[t][s.at[t].txn]|
  }

  function Prog(plan: Plan, s: State, t: nat): Program
    requires Busy(plan, s, t)
  {
    plan[t][s.at[t].txn]
  }

  function NextAction(plan: Plan, s: State, t: nat): Action
    requires Busy(plan, s, t)
  {
    Prog(plan, s, t)[s.at[t].pos]
  }

  /** A mutex can be taken only while nobody owns it; everything else can be done. */
  predicate Enabled(plan: Plan, s: State, t: nat) {
    Busy(plan, s, t) && (NextAction(plan, s, t).Acquire? ==> NextAction(plan, s, t).l !in s.owner)
  }

  function Advance(p: Program, at: Spot): Spot {
    if at.pos + 1 < |p| then Spot(at.txn, at.pos + 1) else Spot(at.txn + 1, 0)
  }

  /** The state after thread `t` has done its next action. */
  function After(plan: Plan, s: State, t: nat): State
    requires Enabled(plan, s, t)
  {
    var p, at := Prog(plan, s, t), s.at[t];
    var moved := s.at[t := Advance(p, at)];
    match p[at.pos]
    case Acquire(l) => State(s.owner[l := t], moved, s.log, s.done)
    case Release(l) => State(s.owner - {l}, moved, s.log, if l == CmdMutex then s.done + [(t, at.txn)] else s.done)
    case Do(io) => State(s.owner, moved, s.log + [(t, io)], s.done)
  }

  /** A run: one thread at a time, in any order. */
  ghost predicate IsRun(plan: Plan, run: seq<State>, who: seq<nat>) {
    && |run| == |who| + 1 && Init(plan, run[0])
    && forall i :: 0 <= i < |who| ==> Enabled(plan, run[i], who[i]) && run[i + 1] == After(plan, run[i], who[i])
  }

  // -------------------------------------------------------------------------
  // What the port has seen
  // -------------------------------------------------------------------------

  function Stamped(t: nat, ios: seq<Io>): seq<(nat, Io)> {
    if ios == [] then [] else Stamped(t, ios[..|ios| - 1]) + [(t, ios[|ios| - 1])]
  }

  predicate Issued(plan: Plan, b: (nat, nat)) {
    b.0 < |plan| && b.1 < |plan[b.0]|
  }

  /** The port operations of one whole transaction. */
  function Block(plan: Plan, b: (nat, nat)): seq<(nat, Io)> {
    if Issued(plan, b) then Stamped(b.0, IosOf(plan[b.0][b.1], |plan[b.0][b.1]|)) else []
  }

  function Blocks(plan: Plan, done: seq<(nat, nat)>): seq<(nat, Io)> {
    if done == [] then [] else Blocks(plan, done[..|done| - 1]) + Block(plan, done[|done| - 1])
  }

  /** What the owner of the command mutex has done of its transaction so far. */
  function Partial(plan: Plan, s: State): seq<(nat, Io)> {
    if CmdMutex in s.owner && Busy(plan, s, s.owner[CmdMutex])
    then var t := s.owner[CmdMutex]; Stamped(t, IosOf(Prog(plan, s, t), s.at[t].pos))
    else []
  }

  /** The transactions of thread `t` among those completed. */
  function Own(done: seq<(nat, nat)>, t: nat): seq<nat> {
    if done == [] then []
    else Own(done[..|done| - 1], t) + (if done[|done| - 1].0 == t then [done[|done| - 1].1] else [])
  }

  function UpTo(n: nat): seq<nat> {
    seq(n, i => i)
  }

  /** The log is whole transactions in some order, plus the beginning of the one
      in progress; each thread's transactions appear once each, in its order. */
  ghost predicate Serial(plan: Plan, s: State) {
    && s.log == Blocks(plan, s.done) + Partial(plan, s)
    && (forall i :: 0 <= i < |s.done| ==> Issued(plan, s.done[i]))
    && |s.at| == |plan|
    && forall t :: 0 <= t < |plan| ==> Own(s.done, t) == UpTo(s.at[t].txn)
  }

  // -------------------------------------------------------------------------
  // The invariant
  // -------------------------------------------------------------------------

  /** The locks thread `t` holds where it stands. */
  function HeldBy(plan: Plan, s: State, t: nat): set<Lock> {
    if Busy(plan, s, t) then Held(Prog(plan, s, t), s.at[t].pos) else {}
  }

  /** Every thread stands inside one of its transactions or has finished them. */
  ghost predicate Placed(plan: Plan, s: State) {
    && |s.at| == |plan|
    && forall t :: 0 <= t < |plan| ==> Busy(plan, s, t) || s.at[t] == Spot(|plan[t]|, 0)
  }

  /** A mutex is owned by the thread that holds it, and by no other. */
  ghost predicate Consistent(owner: map<Lock, nat>, held: seq<set<Lock>>) {
    && (forall l :: l in owner ==> owner[l] < |held| && l in held[owner[l]])
    && (forall t, l :: 0 <= t < |held| && l in held[t] ==> l in owner && owner[l] == t)
  }

  function Holdings(plan: Plan, s: State): seq<set<Lock>> {
    seq(|plan|, t requires t >= 0 => HeldBy(plan, s, t))
  }

  ghost predicate Owned(plan: Plan, s: State) {
    Consistent(s.owner, Holdings(plan, s))
  }

  ghost predicate Inv(plan: Plan, s: State) {
    Placed(plan, s) && Owned(plan, s) && Serial(plan, s)
  }

  lemma InitInv(plan: Plan, s: State)
    requires GoodPlan(plan) && Init(plan, s)
    ensures Inv(plan, s)
  {
    forall t | 0 <= t < |plan|
      ensures Busy(plan, s, t) || s.at[t] == Spot(|plan[t]|, 0)
      ensures HeldBy(plan, s, t) == {}
      ensures Own(s.done, t) == UpTo(s.at[t].txn)
    {
      if |plan[t]| > 0 {
        assert WellFormed(plan[t][0]);
      }
    }
    assert Blocks(plan, s.done) == [] && Partial(plan, s) == [];
  }

  // -------------------------------------------------------------------------
  // One step
  // -------------------------------------------------------------------------

  /** The last action of a transaction, and only that, gives the mutex back. */
  lemma ReleaseIsLast(p: Program, k: nat)
    requires WellFormed(p) && k < |p|
    ensures p[k] == Release(CmdMutex) <==> k + 1 == |p|
    ensures p[k] == Acquire(CmdMutex) ==> k == 0
    ensures k > 0 ==> CmdMutex in Held(p, k)
  {
    assert ActionOk(p, k);
    if k + 1 < |p| {
      assert CmdMutex in Held(p, k + 1);
    }
  }

  lemma StepPlaced(plan: Plan, s: State, t: nat)
    requires GoodPlan(plan) && Placed(plan, s) && Enabled(plan, s, t)
    ensures Placed(plan, After(plan, s, t))
  {
    var s' := After(plan, s, t);
    var n := s.at[t].txn;
    assert s'.at == s.at[t := Advance(Prog(plan, s, t), s.at[t])];
    hide After;
    forall u | 0 <= u < |plan|
      ensures Busy(plan, s', u) || s'.at[u] == Spot(|plan[u]|, 0)
    {
      assert Busy(plan, s, u) || s.at[u] == Spot(|plan[u]|, 0);
      if u == t && n + 1 < |plan[t]| {
        assert WellFormed(plan[t][n + 1]);
      }
    }
  }

  /** What thread `t` holds after its step; the others hold what they held. */
  lemma StepHeld(plan: Plan, s: State, t: nat)
    requires GoodPlan(plan) && Placed(plan, s) && Enabled(plan, s, t)
    ensures var s', a := After(plan, s, t), NextAction(plan, s, t);
      && (forall u :: u != t ==> HeldBy(plan, s', u) == HeldBy(plan, s, u))
      && HeldBy(plan, s', t) == match a
           case Acquire(l) => HeldBy(plan, s, t) + {l}
           case Release(l) => HeldBy(plan, s, t) - {l}
           case Do(_) => HeldBy(plan, s, t)
  {
    var s', p, at := After(plan, s, t), Prog(plan, s, t), s.at[t];
    assert s'.at == s.at[t := Advance(p, at)];
    assert WellFormed(plan[t][at.txn]);
    ReleaseIsLast(p, at.pos);
    StepPlaced(plan, s, t);
    hide After;
    if at.pos + 1 == |p| {
      assert Held(p, |p|) == {};
      assert Held(p, |p|) == Held(p, at.pos) - {CmdMutex};
      assert s'.at[t] == Spot(at.txn + 1, 0);
      assert HeldBy(plan, s', t) == {};
    }
  }

  lemma ConsistentAcquire(owner: map<Lock, nat>, held: seq<set<Lock>>, t: nat, l: Lock)
    requires Consistent(owner, held) && t < |held| && l !in owner
    ensures Consistent(owner[l := t], held[t := held[t] + {l}])
  {
  }

  lemma ConsistentRelease(owner: map<Lock, nat>, held: seq<set<Lock>>, t: nat, l: Lock)
    requires Consistent(owner, held) && t < |held| && l in held[t]
    ensures Consistent(owner - {l}, held[t := held[t] - {l}])
  {
    var held' := held[t := held[t] - {l}];
    assert owner[l] == t;
    forall u, k | 0 <= u < |held'| && k in held'[u]
      ensures k in owner - {l} && (owner - {l})[k] == u
    {
      assert k in held[u];
    }
  }

  lemma StepOwned(plan: Plan, s: State, t: nat)
    requires GoodPlan(plan) && Placed(plan, s) && Owned(plan, s) && Enabled(plan, s, t)
    ensures Owned(plan, After(plan, s, t))
  {
    var a, s', h := NextAction(plan, s, t), After(plan, s, t), Holdings(plan, s);
    assert WellFormed(plan[t][s.at[t].txn]);
    assert ActionOk(Prog(plan, s, t), s.at[t].pos);
    assert a.Release? ==> a.l in HeldBy(plan, s, t);
    StepHeld(plan, s, t);
    hide HeldBy, Held, WellFormed, Consistent, ActionOk;
    assert h[t] == HeldBy(plan, s, t);
    assert Holdings(plan, s') == h[t := HeldBy(plan, s', t)];
    match a {
      case Acquire(l) => ConsistentAcquire(s.owner, h, t, l);
      case Release(l) => ConsistentRelease(s.owner, h, t, l);
      case Do(_) => assert h[t := h[t]] == h;
    }
  }

  /** Only the owner of the command mutex touches the port. */
  lemma PortOwner(plan: Plan, s: State, t: nat)
    requires GoodPlan(plan) && Owned(plan, s) && Busy(plan, s, t)
    ensures s.at[t].pos > 0 ==> CmdMutex in s.owner && s.owner[CmdMutex] == t
    ensures CmdMutex in s.owner && s.owner[CmdMutex] == t ==> s.at[t].pos > 0
  {
    var p := Prog(plan, s, t);
    assert WellFormed(plan[t][s.at[t].txn]);
    ReleaseIsLast(p, s.at[t].pos);
    assert Holdings(plan, s)[t] == HeldBy(plan, s, t) == Held(p, s.at[t].pos);
    assert Held(p, 0) == {};
    hide Held, WellFormed;
  }

  // -------------------------------------------------------------------------
  // The log of one step
  // -------------------------------------------------------------------------

  lemma StampedSnoc(t: nat, ios: seq<Io>, io: Io)
    ensures Stamped(t, ios + [io]) == Stamped(t, ios) + [(t, io)]
  {
    assert (ios + [io])[..|ios|] == ios;
  }

  lemma BlocksSnoc(plan: Plan, done: seq<(nat, nat)>, b: (nat, nat))
    ensures Blocks(plan, done + [b]) == Blocks(plan, done) + Block(plan, b)
  {
    hide Block;
    assert (done + [b])[..|done|] == done;
  }

  lemma OwnSnoc(done: seq<(nat, nat)>, b: (nat, nat), t: nat)
    ensures Own(done + [b], t) == Own(done, t) + (if b.0 == t then [b.1] else [])
  {
    assert (done + [b])[..|done|] == done;
  }

  /** A step inside a transaction extends the unfinished block by what it did. */
  lemma PartialInside(plan: Plan, s: State, t: nat)
    requires GoodPlan(plan) && Placed(plan, s) && Owned(plan, s) && Enabled(plan, s, t)
    requires s.at[t].pos + 1 < |Prog(plan, s, t)|
    ensures var s', a := After(plan, s, t), NextAction(plan, s, t);
      Partial(plan, s') == Partial(plan, s) + (if a.Do? then [(t, a.io)] else [])
  {
    var s', p, at, a := After(plan, s, t), Prog(plan, s, t), s.at[t], NextAction(plan, s, t);
    PortOwner(plan, s, t);
    StepPlaced(plan, s, t);
    StepOwned(plan, s, t);
    assert s'.at == s.at[t := Spot(at.txn, at.pos + 1)];
    assert Busy(plan, s', t) && Prog(plan, s', t) == p;
    PortOwner(plan, s', t);
    IosStep(p, at.pos, t);
    assert Stamped(t, IosOf(p, 0)) == [];
    hide Stamped, IosOf, GoodPlan, Placed, Owned;
    var mine := Stamped(t, IosOf(p, at.pos));
    assert Partial(plan, s') == Stamped(t, IosOf(p, at.pos + 1));
    if at.pos > 0 {
      assert Partial(plan, s) == mine;
    } else {
      FirstAction(plan, s, t);
      assert mine == [];
    }
  }

  lemma IosStep(p: Program, k: nat, t: nat)
    requires k < |p|
    ensures Stamped(t, IosOf(p, k + 1)) == Stamped(t, IosOf(p, k)) + (if p[k].Do? then [(t, p[k].io)] else [])
  {
    if p[k].Do? {
      StampedSnoc(t, IosOf(p, k), p[k].io);
    } else {
      assert IosOf(p, k) + [] == IosOf(p, k);
      assert Stamped(t, IosOf(p, k)) + [] == Stamped(t, IosOf(p, k));
    }
  }

  /** A thread starts a transaction only while no other is in one. */
  lemma FirstAction(plan: Plan, s: State, t: nat)
    requires GoodPlan(plan) && Enabled(plan, s, t) && s.at[t].pos == 0
    ensures NextAction(plan, s, t) == Acquire(CmdMutex) && CmdMutex !in s.owner
    ensures Partial(plan, s) == []
  {
    assert WellFormed(plan[t][s.at[t].txn]);
  }

  /** The last step of a transaction turns the unfinished block into a whole one. */
  lemma PartialLast(plan: Plan, s: State, t: nat)
    requires GoodPlan(plan) && Placed(plan, s) && Owned(plan, s) && Enabled(plan, s, t)
    requires s.at[t].pos + 1 == |Prog(plan, s, t)|
    ensures NextAction(plan, s, t) == Release(CmdMutex)
    ensures Issued(plan, (t, s.at[t].txn)) && Partial(plan, s) == Block(plan, (t, s.at[t].txn))
    ensures Partial(plan, After(plan, s, t)) == []
  {
    var p, at := Prog(plan, s, t), s.at[t];
    assert WellFormed(plan[t][at.txn]);
    ReleaseIsLast(p, at.pos);
    PortOwner(plan, s, t);
    IosStep(p, at.pos, t);
    hide Stamped, IosOf, GoodPlan, Placed, Owned, WellFormed;
    assert Stamped(t, IosOf(p, at.pos)) + [] == Stamped(t, IosOf(p, at.pos));
  }

  lemma UpToSnoc(n: nat)
    ensures UpTo(n) + [n] == UpTo(n + 1)
  {
  }

  lemma StepSerial(plan: Plan, s: State, t: nat)
    requires GoodPlan(plan) && Inv(plan, s) && Enabled(plan, s, t)
    ensures Serial(plan, After(plan, s, t))
  {
    var s', p, at, a := After(plan, s, t), Prog(plan, s, t), s.at[t], NextAction(plan, s, t);
    assert s'.at == s.at[t := Advance(p, at)];
    assert WellFormed(plan[t][at.txn]);
    ReleaseIsLast(p, at.pos);
    if at.pos + 1 < |p| {
      PartialInside(plan, s, t);
      hide WellFormed, Partial, Blocks, Own, UpTo, GoodPlan, Placed, Owned;
      assert s'.done == s.done;
      assert s'.log == s.log + (if a.Do? then [(t, a.io)] else []);
      Associate(Blocks(plan, s.done), Partial(plan, s), if a.Do? then [(t, a.io)] else []);
      assert forall u :: 0 <= u < |plan| ==> s'.at[u].txn == s.at[u].txn;
    } else {
      PartialLast(plan, s, t);
      BlocksSnoc(plan, s.done, (t, at.txn));
      UpToSnoc(at.txn);
      forall u | 0 <= u < |plan|
        ensures Own(s'.done, u) == UpTo(s'.at[u].txn)
      {
        OwnSnoc(s.done, (t, at.txn), u);
        assert Own(s.done, u) == UpTo(s.at[u].txn);
        assert UpTo(s.at[u].txn) + [] == UpTo(s.at[u].txn);
      }
      hide WellFormed, Partial, Blocks, Block, Own, UpTo, GoodPlan, Placed, Owned;
      assert s'.log == s.log && s'.done == s.done + [(t, at.txn)];
      assert Blocks(plan, s'.done) + [] == Blocks(plan, s'.done);
    }
  }

  lemma StepInv(plan: Plan, s: State, t: nat)
    requires GoodPlan(plan) && Inv(plan, s) && Enabled(plan, s, t)
    ensures Inv(plan, After(plan, s, t))
  {
    hide GoodPlan, Placed, Owned, Serial, Enabled, After;
    StepPlaced(plan, s, t);
    StepOwned(plan, s, t);
    StepSerial(plan, s, t);
  }

  // -------------------------------------------------------------------------
  // Every run
  // -------------------------------------------------------------------------

  lemma {:induction false} RunInv(plan: Plan, run: seq<State>, who: seq<nat>, i: nat)
    requires GoodPlan(plan) && IsRun(plan, run, who) && i < |run|
    ensures Inv(plan, run[i])
  {
    hide GoodPlan, Inv, Init, Enabled, After;
    if i == 0 {
      InitInv(plan, run[0]);
    } else {
      RunInv(plan, run, who, i - 1);
      StepInv(plan, run[i - 1], who[i - 1]);
    }
  }

  /** Atomic transactions: at every point of every interleaving the port's log is
      a concatenation of whole transactions followed by the beginning of at most
      one, and every thread's transactions are in it once each and in order. */
  lemma AtomicTransactions(plan: Plan, run: seq<State>, who: seq<nat>)
    requires GoodPlan(plan) && IsRun(plan, run, who)
    ensures forall i :: 0 <= i < |run| ==> Serial(plan, run[i])
  {
    hide GoodPlan, IsRun, Serial, Placed, Owned;
    forall i | 0 <= i < |run|
      ensures Serial(plan, run[i])
    {
      RunInv(plan, run, who, i);
    }
  }

  // -------------------------------------------------------------------------
  // No deadlock
  // -------------------------------------------------------------------------

  /** A thread that holds the highest owned mutex can always go on. */
  lemma HighestCanStep(plan: Plan, s: State, l: Lock)
    requires GoodPlan(plan) && Placed(plan, s) && Owned(plan, s)
    requires l in s.owner && forall k :: k in s.owner ==> Rank(k) <= Rank(l)
    ensures Enabled(plan, s, s.owner[l])
  {
    var t := s.owner[l];
    assert l in Holdings(plan, s)[t] && Holdings(plan, s)[t] == HeldBy(plan, s, t);
    assert Busy(plan, s, t);
    var p, k := Prog(plan, s, t), s.at[t].pos;
    assert WellFormed(plan[t][s.at[t].txn]) && ActionOk(p, k);
    if p[k].Acquire? {
      assert Rank(l) < Rank(p[k].l);
    }
  }

  lemma SomeThreadCanStep(plan: Plan, s: State, busy: nat) returns (t: nat)
    requires GoodPlan(plan) && Inv(plan, s) && Busy(plan, s, busy)
    ensures Enabled(plan, s, t)
  {
    hide GoodPlan, Placed, Owned, Serial, Enabled, Busy;
    if WriteLock in s.owner {
      HighestCanStep(plan, s, WriteLock);
      t := s.owner[WriteLock];
    } else if ReadLock in s.owner {
      HighestCanStep(plan, s, ReadLock);
      t := s.owner[ReadLock];
    } else if CmdMutex in s.owner {
      HighestCanStep(plan, s, CmdMutex);
      t := s.owner[CmdMutex];
    } else {
      forall l: Lock
        ensures l !in s.owner
      {
        match l case CmdMutex => case ReadLock => case WriteLock =>
      }
      NothingOwned(plan, s, busy);
      t := busy;
    }
  }

  lemma NothingOwned(plan: Plan, s: State, t: nat)
    requires Busy(plan, s, t) && forall l: Lock :: l !in s.owner
    ensures Enabled(plan, s, t)
  {
  }

  /** No deadlock: at every point of every interleaving, as long as some thread has
      work left, some thread can do its next action. */
  lemma NoDeadlock(plan: Plan, run: seq<State>, who: seq<nat>, i: nat, busy: nat) returns (t: nat)
    requires GoodPlan(plan) && IsRun(plan, run, who) && i < |run| && Busy(plan, run[i], busy)
    ensures Enabled(plan, run[i], t)
  {
    hide GoodPlan, IsRun, Inv, Enabled, Busy;
    RunInv(plan, run, who, i);
    t := SomeThreadCanStep(plan, run[i], busy);
  }

  lemma WholeWhenIdle(plan: Plan, s: State)
    requires GoodPlan(plan) && Inv(plan, s)
    requires forall t :: 0 <= t < |plan| ==> !Busy(plan, s, t)
    ensures s.log == Blocks(plan, s.done)
    ensures forall t :: 0 <= t < |plan| ==> Own(s.done, t) == UpTo(|plan[t]|)
  {
    assert Partial(plan, s) == [];
    assert Blocks(plan, s.done) + [] == Blocks(plan, s.done);
    hide Blocks, Own, Partial, UpTo;
    assert forall t :: 0 <= t < |plan| ==> s.at[t] == Spot(|plan[t]|, 0);
  }

  /** When a run has left no thread any work, the log is whole transactions only,
      all of them. */
  lemma FinishedRun(plan: Plan, run: seq<State>, who: seq<nat>, s: State)
    requires GoodPlan(plan) && IsRun(plan, run, who) && s == run[|run| - 1]
    requires forall t :: 0 <= t < |plan| ==> !Busy(plan, s, t)
    ensures s.log == Blocks(plan, s.done)
    ensures forall t :: 0 <= t < |plan| ==> Own(s.done, t) == UpTo(|plan[t]|)
  {
    hide GoodPlan, Inv, Busy, Blocks, Own, UpTo;
    RunInv(plan, run, who, |run| - 1);
    WholeWhenIdle(plan, s);
  }

  /** The plans the driver can make: every transaction is some path of `send_cmd`. */
  lemma DriverPlansAreGood(paths: seq<seq<Path>>, plan: Plan)
    requires |plan| == |paths|
    requires forall t :: 0 <= t < |plan| ==> |plan[t]| == |paths[t]|
    requires forall t, i :: 0 <= t < |plan| && 0 <= i < |plan[t]| ==> plan[t][i] == SendCmdProgram(paths[t][i])
    ensures GoodPlan(plan)
  {
    hide WellFormed, SendCmdProgram;
    forall t, i | 0 <= t < |plan| && 0 <= i < |plan[t]|
      ensures WellFormed(plan[t][i])
    {
      SendCmdWellFormed(paths[t][i]);
    }
  }
}
