/**
 Roll-forward after packet loss (`secure_core/src/anti_dos.rs`): one caller after another, and any
 number of threads at once.
 */
module Recovery {
  import opened Bytes
  import opened Crypto
  import opened RootState

  // ---- one after another ---------------------------------------------------------------

  function RecoverAll(p: Peer, targets: seq<u32>): Peer
    decreases |targets|
  {
    if targets == [] then p else RecoverAll(Recover(p, targets[0]).0, targets[1..])
  }

  /** No call is refused for asking too much at once. */
  predicate InCap(p: Peer, targets: seq<u32>)
    decreases |targets|
  {
    targets == [] || (targets[0] - p.epoch <= RECOVERY_CAP && InCap(Recover(p, targets[0]).0, targets[1..]))
  }

  /** The largest target, or the present epoch if none is larger. */
  function Highest(e: u32, targets: seq<u32>): (m: u32)
    ensures e <= m && (m == e || m in targets)
    ensures forall t :: t in targets ==> t <= m
    decreases |targets|
  {
    if targets == [] then e
    else
      assert forall t :: t in targets ==> t == targets[0] || t in targets[1..];
      Highest(if targets[0] > e then targets[0] else e, targets[1..])
  }

  lemma RollByAdd(p: Peer, j: nat, k: nat)
    requires p.epoch + j + k < U32_LIMIT
    ensures RollBy(RollBy(p, j), k) == RollBy(p, j + k)
  {
    RollNAdd(p.curr, j, k);
  }

  /** Path independence: the order and number of calls do not matter, only the largest target. */
  lemma {:induction false} PathIndependence(p: Peer, targets: seq<u32>)
    requires InCap(p, targets)
    ensures RecoverAll(p, targets) == RollBy(p, Highest(p.epoch, targets) - p.epoch)
    decreases |targets|
  {
    if targets != [] {
      var q := Recover(p, targets[0]).0;
      PathIndependence(q, targets[1..]);
      var j, k := q.epoch - p.epoch, Highest(q.epoch, targets[1..]) - q.epoch;
      RollByAdd(p, j, k);
    }
  }

  /** Two in-cap call sequences with the same targets in any order and number end alike. */
  lemma OrderIrrelevant(p: Peer, ts: seq<u32>, us: seq<u32>)
    requires InCap(p, ts) && InCap(p, us)
    requires forall t: u32 :: t in ts <==> t in us
    ensures RecoverAll(p, ts) == RecoverAll(p, us)
  {
    PathIndependence(p, ts);
    PathIndependence(p, us);
  }

  /** The error value is returned exactly when the gap is over the cap or the epoch reached is itself that value. */
  lemma ErrorExactly(p: Peer, target: u32)
    ensures var (q, r) := Recover(p, target);
            && (r == U32_MAX <==> target - p.epoch > RECOVERY_CAP || q.epoch == U32_MAX)
            && (target - p.epoch > RECOVERY_CAP ==> q == p)
            && (target - p.epoch <= RECOVERY_CAP ==> r == q.epoch && q.curr == RollN(p.curr, q.epoch - p.epoch))
  {
  }

  // ---- many threads --------------------------------------------------------------------

  /** A thread is before its first read, between two rolls, or back with a value. */
  datatype Thread =
    | Entered(target: u32)
    | Rolling(target: u32, left: nat, last: u32)
    | Returned(target: u32, value: u32)

  datatype Machine = Machine(peer: Peer, threads: seq<Thread>)

  /** The next lock-protected step of thread i: read the epoch, or roll once. */
  function StepThread(s: Machine, i: nat): Machine
    requires i < |s.threads|
  {
    match s.threads[i]
    case Returned(_, _) => s
    case Entered(target) =>
      var e := s.peer.epoch;
      s.(threads := s.threads[i :=
        if target <= e then Returned(target, e)
        else if target - e > RECOVERY_CAP then Returned(target, U32_MAX)
        else Rolling(target, target - e, e)])
    case Rolling(target, left, last) =>
      if left == 0 then s.(threads := s.threads[i := Returned(target, last)])
      else
        var p := RollForward(s.peer);
        Machine(p, s.threads[i :=
          if p.epoch == U32_MAX then Returned(target, U32_MAX) else Rolling(target, left - 1, p.epoch)])
  }

  /** A schedule names a thread for each step. */
  predicate Names(schedule: seq<nat>, n: nat) {
    forall k :: 0 <= k < |schedule| ==> schedule[k] < n
  }

  function Play(s: Machine, schedule: seq<nat>): (t: Machine)
    requires Names(schedule, |s.threads|)
    ensures |t.threads| == |s.threads|
    decreases |schedule|
  {
    if schedule == [] then s
    else
      assert Names(schedule[1..], |s.threads|);
      Play(StepThread(s, schedule[0]), schedule[1..])
  }

  /** The rolls a thread may still do, counted from the starting epoch. */
  function Budget(t: Thread, e0: u32): nat {
    match t
    case Entered(target) => if e0 < target then target - e0 else 0
    case Rolling(_, left, _) => left
    case Returned(_, _) => 0
  }

  function Total(ts: seq<Thread>, e0: u32): nat {
    if ts == [] then 0 else Budget(ts[0], e0) + Total(ts[1..], e0)
  }

  lemma {:induction false} TotalUpdate(ts: seq<Thread>, e0: u32, i: nat, t: Thread)
    requires i < |ts|
    ensures Total(ts[i := t], e0) == Total(ts, e0) - Budget(ts[i], e0) + Budget(t, e0)
    ensures Budget(ts[i], e0) <= Total(ts, e0)
  {
    if i == 0 {
      assert ts[i := t][1..] == ts[1..];
    } else {
      assert ts[i := t][1..] == ts[1..][i - 1 := t];
      TotalUpdate(ts[1..], e0, i - 1, t);
    }
  }

  /** What a thread may rely on, whatever the others do. */
  predicate ThreadOk(t: Thread, e0: u32, now: u32) {
    match t
    case Entered(_) => true
    case Rolling(target, left, last) => last <= now && target <= last + left
    case Returned(target, value) =>
      (target <= value <= now) || (value == U32_MAX && target - e0 > RECOVERY_CAP)
  }

  /** The run so far, from a start at root r0 and epoch e0 with `allowance` rolls asked for. */
  ghost predicate Sound(s: Machine, r0: Root, e0: u32, allowance: nat) {
    && e0 <= s.peer.epoch && s.peer.curr == RollN(r0, s.peer.epoch - e0)
    && s.peer.epoch + Total(s.threads, e0) <= e0 + allowance
    && forall i :: 0 <= i < |s.threads| ==> ThreadOk(s.threads[i], e0, s.peer.epoch)
  }

  lemma SoundStep(s: Machine, i: nat, r0: Root, e0: u32, allowance: nat)
    requires i < |s.threads| && Sound(s, r0, e0, allowance) && e0 + allowance < U32_MAX
    ensures Sound(StepThread(s, i), r0, e0, allowance)
  {
    hide Total;
    var t := StepThread(s, i);
    TotalUpdate(s.threads, e0, i, t.threads[i]);
    assert ThreadOk(s.threads[i], e0, s.peer.epoch);
  }

  lemma {:induction false} SoundPlay(s: Machine, schedule: seq<nat>, r0: Root, e0: u32, allowance: nat)
    requires Names(schedule, |s.threads|) && Sound(s, r0, e0, allowance) && e0 + allowance < U32_MAX
    ensures Sound(Play(s, schedule), r0, e0, allowance)
    decreases |schedule|
  {
    if schedule != [] {
      SoundStep(s, schedule[0], r0, e0, allowance);
      assert Names(schedule[1..], |s.threads|);
      SoundPlay(StepThread(s, schedule[0]), schedule[1..], r0, e0, allowance);
    }
  }

  predicate AllEntered(ts: seq<Thread>) {
    forall i :: 0 <= i < |ts| ==> ts[i].Entered?
  }

  /**
   Interleaved recovery. In every interleaving, below wrap-around, the root is the starting root
   rolled once per epoch gained, every call that was within the cap returns at least its target
   and at most the present epoch, and the epoch stays within the sum of what was asked for.
   */
  lemma InterleavedRecovery(s: Machine, schedule: seq<nat>)
    requires AllEntered(s.threads) && Names(schedule, |s.threads|)
    requires s.peer.epoch + Total(s.threads, s.peer.epoch) < U32_MAX
    ensures var (e0, t) := (s.peer.epoch, Play(s, schedule));
            && e0 <= t.peer.epoch <= e0 + Total(s.threads, e0)
            && t.peer.curr == RollN(s.peer.curr, t.peer.epoch - e0)
            && forall i :: 0 <= i < |t.threads| && t.threads[i].Returned? ==>
                 var Returned(target, value) := t.threads[i];
                 target - e0 <= RECOVERY_CAP ==> target <= value <= t.peer.epoch
  {
    SoundPlay(s, schedule, s.peer.curr, s.peer.epoch, Total(s.threads, s.peer.epoch));
  }

  // ---- one thread alone ----------------------------------------------------------------

  function Alone(n: nat): seq<nat> {
    seq(n, _ => 0)
  }

  lemma {:induction false} AloneStays(p: Peer, t: Thread, n: nat)
    requires t.Returned?
    ensures Play(Machine(p, [t]), Alone(n)) == Machine(p, [t])
    decreases n
  {
    if n > 0 {
      AloneStays(p, t, n - 1);
      assert Alone(n)[1..] == Alone(n - 1);
    }
  }

  lemma {:induction false} AloneRolls(p: Peer, target: u32, left: nat, n: nat)
    requires p.epoch + left == target && n >= left + 1 && (left == 0 ==> target < U32_MAX)
    ensures Play(Machine(p, [Rolling(target, left, p.epoch)]), Alone(n)) == Machine(RollBy(p, left), [Returned(target, target)])
    decreases left
  {
    var s := Machine(p, [Rolling(target, left, p.epoch)]);
    assert Alone(n)[1..] == Alone(n - 1);
    var t := StepThread(s, 0);
    assert t == Machine(t.peer, [t.threads[0]]);
    assert Play(s, Alone(n)) == Play(t, Alone(n - 1));
    if left == 0 {
      AloneStays(t.peer, t.threads[0], n - 1);
    } else if t.peer.epoch == U32_MAX {
      assert left == 1 && RollN(p.curr, 1) == Roll(RollN(p.curr, 0)) == Roll(p.curr);
      AloneStays(t.peer, t.threads[0], n - 1);
    } else {
      AloneRolls(t.peer, target, left - 1, n - 1);
      RollNFirst(p.curr, left - 1);
    }
  }

  /** A thread that nobody interrupts ends where one recovery does and returns what it returns. */
  lemma SoloRecovers(p: Peer, target: u32, n: nat)
    requires n >= 2 && n >= target - p.epoch + 2
    ensures var (q, r) := Recover(p, target);
            Play(Machine(p, [Entered(target)]), Alone(n)) == Machine(q, [Returned(target, r)])
  {
    var t := StepThread(Machine(p, [Entered(target)]), 0);
    assert Alone(n)[1..] == Alone(n - 1);
    assert t == Machine(p, [t.threads[0]]);
    if t.threads[0].Rolling? {
      AloneRolls(p, target, target - p.epoch, n - 1);
    } else {
      AloneStays(p, t.threads[0], n - 1);
    }
  }

  // ---- the bound is attained -----------------------------------------------------------

  lemma {:induction false} PlayConcat(s: Machine, a: seq<nat>, b: seq<nat>)
    requires Names(a, |s.threads|) && Names(b, |s.threads|)
    ensures Names(a + b, |s.threads|) && Play(s, a + b) == Play(Play(s, a), b)
    decreases |a|
  {
    if a == [] {
      assert a + b == b;
    } else {
      assert Names(a[1..], |s.threads|);
      PlayConcat(StepThread(s, a[0]), a[1..], b);
      assert (a + b)[1..] == a[1..] + b;
    }
  }

  /** Threads below i have read the epoch, the others have not, and nobody has rolled. */
  ghost predicate ReadUpTo(s: Machine, i: nat, e0: u32) {
    && i <= |s.threads| && s.peer.epoch == e0
    && forall k :: 0 <= k < |s.threads| ==>
         if k < i then !s.threads[k].Entered? else s.threads[k].Entered? && s.threads[k].target - e0 <= RECOVERY_CAP
  }

  lemma {:induction false} AllRead(s: Machine, i: nat, e0: u32) returns (schedule: seq<nat>)
    requires ReadUpTo(s, i, e0)
    ensures Names(schedule, |s.threads|)
    ensures var t := Play(s, schedule);
            t.peer == s.peer && Total(t.threads, e0) == Total(s.threads, e0) && ReadUpTo(t, |t.threads|, e0)
    decreases |s.threads| - i
  {
    if i == |s.threads| {
      schedule := [];
    } else {
      var t := StepThread(s, i);
      TotalUpdate(s.threads, e0, i, t.threads[i]);
      var rest := AllRead(t, i + 1, e0);
      schedule := [i] + rest;
      assert schedule[1..] == rest;
    }
  }

  /** The steps left until every thread has returned. */
  function Work(ts: seq<Thread>): nat {
    if ts == [] then 0
    else (match ts[0] case Rolling(_, left, _) => left + 1 case _ => 0) + Work(ts[1..])
  }

  lemma {:induction false} WorkUpdate(ts: seq<Thread>, i: nat, t: Thread)
    requires i < |ts| && ts[i].Rolling?
    requires t.Returned? || (t.Rolling? && t.left < ts[i].left)
    ensures Work(ts[i := t]) < Work(ts)
  {
    if i == 0 {
      assert ts[i := t][1..] == ts[1..];
    } else {
      assert ts[i := t][1..] == ts[1..][i - 1 := t];
      WorkUpdate(ts[1..], i - 1, t);
    }
  }

  lemma {:induction false} AllReturnedTotal(ts: seq<Thread>, e0: u32)
    requires forall i :: 0 <= i < |ts| ==> ts[i].Returned?
    ensures Total(ts, e0) == 0
  {
    if ts != [] { AllReturnedTotal(ts[1..], e0); }
  }

  /** Once everyone has read, whoever still rolls can be run to the end, spending the whole budget. */
  lemma {:induction false} RunOut(s: Machine, e0: u32) returns (schedule: seq<nat>)
    requires forall i :: 0 <= i < |s.threads| ==> !s.threads[i].Entered?
    requires s.peer.epoch + Total(s.threads, e0) < U32_MAX
    ensures Names(schedule, |s.threads|)
    ensures var t := Play(s, schedule);
            && t.peer.epoch == s.peer.epoch + Total(s.threads, e0)
            && forall i :: 0 <= i < |t.threads| ==> t.threads[i].Returned?
    decreases Work(s.threads)
  {
    if i :| 0 <= i < |s.threads| && s.threads[i].Rolling? {
      var t := StepThread(s, i);
      TotalUpdate(s.threads, e0, i, t.threads[i]);
      WorkUpdate(s.threads, i, t.threads[i]);
      var rest := RunOut(t, e0);
      schedule := [i] + rest;
      assert schedule[1..] == rest;
    } else {
      schedule := [];
      AllReturnedTotal(s.threads, e0);
    }
  }

  /** The bound is tight: some interleaving ends with every thread back and the whole sum rolled. */
  lemma BoundAttained(s: Machine) returns (schedule: seq<nat>)
    requires AllEntered(s.threads)
    requires forall i :: 0 <= i < |s.threads| ==> s.threads[i].target - s.peer.epoch <= RECOVERY_CAP
    requires s.peer.epoch + Total(s.threads, s.peer.epoch) < U32_MAX
    ensures Names(schedule, |s.threads|)
    ensures var t := Play(s, schedule);
            && t.peer.epoch == s.peer.epoch + Total(s.threads, s.peer.epoch)
            && forall i :: 0 <= i < |t.threads| ==> t.threads[i].Returned?
  {
    var e0 := s.peer.epoch;
    var first := AllRead(s, 0, e0);
    var second := RunOut(Play(s, first), e0);
    PlayConcat(s, first, second);
    schedule := first + second;
  }
}
