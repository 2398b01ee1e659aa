/**
 The mutexes of `root_state.rs`, `evolution.rs` and `init_module.rs`, the order in which each call takes them, and
 deadlock freedom for any number of threads making any calls.
 */
module Locks {

  datatype Lock = PeerPk | PeerPkHash | Curr | Pend | Epoch | EvoState | BobKeys | StoredPk

  /** One order that every nested acquisition follows. */
  function Rank(l: Lock): nat {
    match l
    case PeerPk => 0
    case PeerPkHash => 1
    case Curr => 2
    case Pend => 3
    case Epoch => 4
    case EvoState => 5
    case BobKeys => 6
    case StoredPk => 7
  }

  datatype Op = Acquire(lock: Lock) | Release(lock: Lock)

  /** How far `start_evolution` got before it returned. */
  datatype StartExit = NoKey | KeySwapped | NotEncapsulated | Started

  datatype Call =
    | Touch(lock: Lock)               // a single read or write of one global
    | SetPeerPublicKey
    | StartEvolution(exit: StartExit)
    | ApplyPeerKem(applied: bool)
    | CommitEvolution
    | RollEpochForward

  function Brief(l: Lock): seq<Op> {
    [Acquire(l), Release(l)]
  }

  /** What `start_evolution` does while it holds the public key. */
  function UnderPeerPk(exit: StartExit): seq<Op> {
    match exit
    case NoKey => [Release(PeerPk)]
    case KeySwapped => Brief(PeerPkHash) + [Release(PeerPk)]
    case NotEncapsulated => Brief(PeerPkHash) + [Release(PeerPk)]
    case Started => Brief(PeerPkHash) + (Brief(Pend) + (Brief(EvoState) + [Release(PeerPk)]))
  }

  /** The lock operations of a call, in program order. */
  function Ops(c: Call): seq<Op> {
    match c
    case Touch(l) => Brief(l)
    case SetPeerPublicKey => [Acquire(PeerPk)] + (Brief(PeerPkHash) + [Release(PeerPk)])
    case StartEvolution(exit) => Brief(Curr) + ([Acquire(PeerPk)] + UnderPeerPk(exit))
    case ApplyPeerKem(applied) =>
      if applied then Brief(BobKeys) + (Brief(Curr) + Brief(Pend)) else Brief(BobKeys)
    case CommitEvolution =>
      [Acquire(Curr)] + ([Acquire(Pend)] + (Brief(Epoch) + ([Release(Pend)] + [Release(Curr)])))
    case RollEpochForward => [Acquire(Curr)] + (Brief(Epoch) + [Release(Curr)])
  }

  function Program(calls: seq<Call>): seq<Op> {
    if calls == [] then [] else Ops(calls[0]) + Program(calls[1..])
  }

  // ---- threads -------------------------------------------------------------------------

  datatype Thread = Thread(held: set<Lock>, rest: seq<Op>)

  predicate Free(ts: seq<Thread>, l: Lock) {
    forall i :: 0 <= i < |ts| ==> l !in ts[i].held
  }

  predicate Enabled(ts: seq<Thread>, i: nat) {
    i < |ts| && ts[i].rest != [] && (ts[i].rest[0].Acquire? ==> Free(ts, ts[i].rest[0].lock))
  }

  function After(t: Thread): Thread
    requires t.rest != []
  {
    match t.rest[0]
    case Acquire(l) => Thread(t.held + {l}, t.rest[1..])
    case Release(l) => Thread(t.held - {l}, t.rest[1..])
  }

  function StepLocks(ts: seq<Thread>, i: nat): seq<Thread>
    requires Enabled(ts, i)
  {
    ts[i := After(ts[i])]
  }

  /** From here on every acquisition goes up in rank, and everything held is given back. */
  ghost predicate Ordered(held: set<Lock>, rest: seq<Op>)
    decreases |rest|
  {
    if rest == [] then held == {}
    else match rest[0]
      case Acquire(l) => (forall m :: m in held ==> Rank(m) < Rank(l)) && Ordered(held + {l}, rest[1..])
      case Release(l) => l in held && Ordered(held - {l}, rest[1..])
  }

  ghost predicate LocksInv(ts: seq<Thread>) {
    && (forall i :: 0 <= i < |ts| ==> Ordered(ts[i].held, ts[i].rest))
    && (forall i, j :: 0 <= i < j < |ts| ==> ts[i].held !! ts[j].held)
  }

  lemma LocksStep(ts: seq<Thread>, i: nat)
    requires LocksInv(ts) && Enabled(ts, i)
    ensures LocksInv(StepLocks(ts, i))
  {
    var us := StepLocks(ts, i);
    forall j, k | 0 <= j < k < |us| ensures us[j].held !! us[k].held {
      assert ts[j].held !! ts[k].held;
    }
  }

  // ---- every call is ordered -----------------------------------------------------------

  /** Taking and giving back a lock above everything held changes nothing. */
  lemma BriefOrdered(held: set<Lock>, l: Lock, rest: seq<Op>)
    requires forall m :: m in held ==> Rank(m) < Rank(l)
    requires Ordered(held, rest)
    ensures Ordered(held, Brief(l) + rest)
  {
    var ops := Brief(l) + rest;
    assert l !in held;
    assert held + {l} - {l} == held;
    assert ops[1..][1..] == rest;
    assert Ordered(held + {l}, ops[1..]);
  }

  lemma AcquireOrdered(held: set<Lock>, l: Lock, rest: seq<Op>)
    requires forall m :: m in held ==> Rank(m) < Rank(l)
    requires Ordered(held + {l}, rest)
    ensures Ordered(held, [Acquire(l)] + rest)
  {
    assert ([Acquire(l)] + rest)[1..] == rest;
  }

  lemma ReleaseOrdered(held: set<Lock>, l: Lock, rest: seq<Op>)
    requires l !in held && Ordered(held, rest)
    ensures Ordered(held + {l}, [Release(l)] + rest)
  {
    assert ([Release(l)] + rest)[1..] == rest;
    assert held + {l} - {l} == held;
  }

  /** A call that gives everything back can be followed by another. */
  lemma {:induction false} OrderedConcat(held: set<Lock>, a: seq<Op>, b: seq<Op>)
    requires Ordered(held, a) && Ordered({}, b)
    ensures Ordered(held, a + b)
    decreases |a|
  {
    if a == [] {
      assert a + b == b;
    } else {
      assert (a + b)[1..] == a[1..] + b;
      OrderedConcat(match a[0] case Acquire(l) => held + {l} case Release(l) => held - {l}, a[1..], b);
    }
  }

  lemma LastRelease(l: Lock)
    ensures Ordered({l}, [Release(l)])
  {
    ReleaseOrdered({}, l, []);
    assert {} + {l} == {l} && [Release(l)] + [] == [Release(l)];
  }

  lemma StartOrdered(exit: StartExit)
    ensures Ordered({}, Ops(StartEvolution(exit)))
  {
    LastRelease(PeerPk);
    var out := [Release(PeerPk)];
    BriefOrdered({PeerPk}, PeerPkHash, out);
    BriefOrdered({PeerPk}, EvoState, out);
    BriefOrdered({PeerPk}, Pend, Brief(EvoState) + out);
    BriefOrdered({PeerPk}, PeerPkHash, Brief(Pend) + (Brief(EvoState) + out));
    assert {} + {PeerPk} == {PeerPk};
    AcquireOrdered({}, PeerPk, UnderPeerPk(exit));
    BriefOrdered({}, Curr, [Acquire(PeerPk)] + UnderPeerPk(exit));
  }

  lemma CommitOrdered()
    ensures Ordered({}, Ops(CommitEvolution))
  {
    LastRelease(Curr);
    assert {} + {Curr} == {Curr} && {Curr} + {Pend} == {Curr, Pend};
    ReleaseOrdered({Curr}, Pend, [Release(Curr)]);
    var out := [Release(Pend)] + [Release(Curr)];
    BriefOrdered({Curr, Pend}, Epoch, out);
    AcquireOrdered({Curr}, Pend, Brief(Epoch) + out);
    AcquireOrdered({}, Curr, [Acquire(Pend)] + (Brief(Epoch) + out));
  }

  /** A lock held around a brief use of a higher one. */
  lemma AroundOrdered(outer: Lock, inner: Lock)
    requires Rank(outer) < Rank(inner)
    ensures Ordered({}, [Acquire(outer)] + (Brief(inner) + [Release(outer)]))
  {
    LastRelease(outer);
    BriefOrdered({outer}, inner, [Release(outer)]);
    assert {} + {outer} == {outer};
    AcquireOrdered({}, outer, Brief(inner) + [Release(outer)]);
  }

  lemma TouchOrdered(l: Lock)
    ensures Ordered({}, Brief(l))
  {
    BriefOrdered({}, l, []);
    assert Brief(l) + [] == Brief(l);
  }

  lemma CallOrdered(c: Call)
    ensures Ordered({}, Ops(c))
  {
    match c {
      case Touch(l) => TouchOrdered(l);
      case SetPeerPublicKey => AroundOrdered(PeerPk, PeerPkHash);
      case StartEvolution(exit) => StartOrdered(exit);
      case ApplyPeerKem(_) =>
        TouchOrdered(BobKeys);
        TouchOrdered(Pend);
        BriefOrdered({}, Curr, Brief(Pend));
        BriefOrdered({}, BobKeys, Brief(Curr) + Brief(Pend));
      case CommitEvolution => CommitOrdered();
      case RollEpochForward => AroundOrdered(Curr, Epoch);
    }
  }

  lemma {:induction false} ProgramOrdered(calls: seq<Call>)
    ensures Ordered({}, Program(calls))
  {
    if calls != [] {
      ProgramOrdered(calls[1..]);
      CallOrdered(calls[0]);
      OrderedConcat({}, Ops(calls[0]), Program(calls[1..]));
    }
  }

  // ---- deadlock freedom ----------------------------------------------------------------

  predicate Done(ts: seq<Thread>) {
    forall i :: 0 <= i < |ts| ==> ts[i].rest == []
  }

  /** Follow who waits for whom upwards in rank until somebody can move. */
  lemma {:induction false} SomeoneMoves(ts: seq<Thread>, i: nat) returns (k: nat)
    requires LocksInv(ts) && i < |ts| && ts[i].rest != []
    ensures Enabled(ts, k)
    decreases 8 - if ts[i].rest[0].Acquire? then Rank(ts[i].rest[0].lock) else 8
  {
    if Enabled(ts, i) {
      k := i;
    } else {
      var l := ts[i].rest[0].lock;
      var j :| 0 <= j < |ts| && l in ts[j].held;
      k := SomeoneMoves(ts, j);
    }
  }

  ghost predicate Reachable(ts: seq<Thread>, us: seq<Thread>, schedule: seq<nat>)
    decreases |schedule|
  {
    if schedule == [] then ts == us
    else Enabled(ts, schedule[0]) && Reachable(StepLocks(ts, schedule[0]), us, schedule[1..])
  }

  lemma {:induction false} LocksRun(ts: seq<Thread>, us: seq<Thread>, schedule: seq<nat>)
    requires LocksInv(ts) && Reachable(ts, us, schedule)
    ensures LocksInv(us)
    decreases |schedule|
  {
    if schedule != [] {
      LocksStep(ts, schedule[0]);
      LocksRun(StepLocks(ts, schedule[0]), us, schedule[1..]);
    }
  }

  /** Threads about to make the given calls. */
  function Launch(calls: seq<seq<Call>>): seq<Thread> {
    seq(|calls|, i requires 0 <= i < |calls| => Thread({}, Program(calls[i])))
  }

  /**
   Deadlock freedom. Whatever calls any number of threads make, and however they have been
   interleaved so far, either all are done and every lock is free, or some thread can step.
   */
  lemma DeadlockFree(calls: seq<seq<Call>>, us: seq<Thread>, schedule: seq<nat>)
    requires Reachable(Launch(calls), us, schedule)
    ensures if Done(us) then forall l :: Free(us, l) else exists k :: Enabled(us, k)
  {
    forall i | 0 <= i < |calls| ensures Ordered({}, Launch(calls)[i].rest) {
      ProgramOrdered(calls[i]);
    }
    LocksRun(Launch(calls), us, schedule);
    if !Done(us) {
      var i :| 0 <= i < |us| && us[i].rest != [];
      var k := SomeoneMoves(us, i);
    }
  }

  // ---- what is changed under which locks -----------------------------------------------

  /** The globals a call changes, by the locks that guard them. */
  function Writes(c: Call): set<Lock> {
    match c
    case Touch(l) => {l}
    case SetPeerPublicKey => {PeerPk, PeerPkHash}
    case StartEvolution(exit) => if exit.Started? then {Pend, EvoState} else {}
    case ApplyPeerKem(applied) => if applied then {Pend} else {}
    case CommitEvolution => {Curr, Pend, Epoch}
    case RollEpochForward => {Curr, Epoch}
  }

  /** The locks held after the first k operations. */
  function HeldAt(ops: seq<Op>, k: nat): set<Lock>
    requires k <= |ops|
  {
    if k == 0 then {}
    else match ops[k - 1]
      case Acquire(l) => HeldAt(ops, k - 1) + {l}
      case Release(l) => HeldAt(ops, k - 1) - {l}
  }

  /** At one moment a commit, a roll and a key installation hold every lock of what they change, and no other. */
  lemma ChangesTogether(c: Call) returns (k: nat)
    requires c.CommitEvolution? || c.RollEpochForward? || c.SetPeerPublicKey? || c.Touch?
    ensures k <= |Ops(c)| && HeldAt(Ops(c), k) == Writes(c)
  {
    var ops := Ops(c);
    match c {
      case CommitEvolution =>
        assert ops[0] == Acquire(Curr) && ops[1] == Acquire(Pend) && ops[2] == Acquire(Epoch);
        assert HeldAt(ops, 1) == {Curr} && HeldAt(ops, 2) == {Curr, Pend};
        k := 3;
      case RollEpochForward =>
        assert ops[0] == Acquire(Curr) && ops[1] == Acquire(Epoch);
        assert HeldAt(ops, 1) == {Curr};
        k := 2;
      case SetPeerPublicKey =>
        assert ops[0] == Acquire(PeerPk) && ops[1] == Acquire(PeerPkHash);
        assert HeldAt(ops, 1) == {PeerPk};
        k := 2;
      case Touch(l) =>
        assert ops[0] == Acquire(l);
        k := 1;
    }
  }

  /** A start and an apply never hold the current and the pending root at once. */
  lemma ReadsAndWritesApart(c: Call, k: nat)
    requires (c.StartEvolution? || c.ApplyPeerKem?) && k <= |Ops(c)|
    ensures !({Curr, Pend} <= HeldAt(Ops(c), k))
  {
    var ops := Ops(c);
    if c.StartEvolution? {
      assert ops[0] == Acquire(Curr) && ops[1] == Release(Curr);
      forall j | 2 <= j < |ops| ensures ops[j] != Acquire(Curr) {}
      NotRetaken(ops, Curr, 2, k);
    } else {
      assert ops[0] == Acquire(BobKeys) && ops[1] == Release(BobKeys);
      if |ops| > 2 {
        assert ops[2] == Acquire(Curr) && ops[3] == Release(Curr) && ops[4] == Acquire(Pend) && ops[5] == Release(Pend);
        NotRetaken(ops, Curr, 4, k);
        NotYetTaken(ops, Pend, if k < 4 then k else 4);
      } else {
        NotYetTaken(ops, Pend, k);
      }
    }
    if c.StartEvolution? && k < 2 { NotYetTaken(ops, Pend, k); }
  }

  lemma {:induction false} NotYetTaken(ops: seq<Op>, l: Lock, k: nat)
    requires k <= |ops| && forall j :: 0 <= j < k ==> ops[j] != Acquire(l)
    ensures l !in HeldAt(ops, k)
  {
    if k > 0 { NotYetTaken(ops, l, k - 1); }
  }

  lemma {:induction false} NotRetaken(ops: seq<Op>, l: Lock, from: nat, k: nat)
    requires 0 < from <= |ops| && ops[from - 1] == Release(l) && k <= |ops|
    requires forall j :: from <= j < |ops| ==> ops[j] != Acquire(l)
    ensures k >= from ==> l !in HeldAt(ops, k)
  {
    if k > from { NotRetaken(ops, l, from, k - 1); }
  }

  /** While a thread holds locks, in any interleaving, no other thread holds one of them. */
  lemma Exclusive(calls: seq<seq<Call>>, us: seq<Thread>, schedule: seq<nat>, i: nat, j: nat)
    requires Reachable(Launch(calls), us, schedule) && i < |us| && j < |us| && i != j
    ensures us[i].held !! us[j].held
  {
    forall k | 0 <= k < |calls| ensures Ordered({}, Launch(calls)[k].rest) {
      ProgramOrdered(calls[k]);
    }
    LocksRun(Launch(calls), us, schedule);
  }

  /**
   The opposite nesting would deadlock: two threads that start with nothing and nest the same two
   locks in opposite orders reach a state in which neither can step.
   */
  lemma OppositeOrderDeadlocks(a: Lock, b: Lock, ts: seq<Thread>) returns (us: seq<Thread>, schedule: seq<nat>)
    requires a != b
    requires ts == [Thread({}, [Acquire(a), Acquire(b), Release(b), Release(a)]),
                    Thread({}, [Acquire(b), Acquire(a), Release(a), Release(b)])]
    ensures Reachable(ts, us, schedule)
    ensures !Done(us) && forall k: nat :: !Enabled(us, k)
  {
    schedule := [0, 1];
    assert Enabled(ts, 0);
    var mid := StepLocks(ts, 0);
    assert Free(mid, b);
    us := StepLocks(mid, 1);
    assert schedule[1..] == [1] && [1][1..] == [];
    assert Reachable(mid, us, [1]);
    assert a in us[0].held && b in us[1].held;
  }
}
