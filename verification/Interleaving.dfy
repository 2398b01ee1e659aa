/**
 The session calls at the granularity of their locks (`evolution.rs`, `message_cipher.rs`,
 `root_state.rs`). A start or an apply reads the current root under one lock and sets the pending one
 under another; a receipt reads the current root, the epoch and the pending root, and commits, each
 under its own. Between any two of these steps other threads may run.
 */
module Interleaving {
  import opened Bytes
  import opened Crypto
  import opened MessageCipher
  import opened RootState

  /** A thread, named by what it does next and what it has read so far. */
  datatype Thread =
    | Evolving(secret: Secret)                         // reads the current root
    | Derived(root: Root)                              // sets the pending root
    | Committing
    | Rolling
    | Receiving(wire: Wire, h: Header)                 // reads the current root
    | HasCurr(wire: Wire, h: Header, curr: Root)       // reads the epoch, tries the current root
    | WantsPend(wire: Wire, h: Header)                 // reads the pending root, tries it
    | Opened(text: seq<byte>, root: Root)              // opened under a pending root; commits
    | Returned(r: Option<Received>)
    | Ended

  datatype Machine = Machine(peer: Peer, threads: seq<Thread>)

  function OpenUnder(wire: Wire, h: Header, root: Root): Option<seq<byte>> {
    Decrypt(wire, DeriveMessageKey(root, h.epoch, h.msgSeq), h)
  }

  /** One lock-protected step of a thread. */
  function Act(p: Peer, t: Thread): (Peer, Thread) {
    match t
    case Evolving(secret) => (p, Derived(Evolve(secret, p.curr)))
    case Derived(root) => (p.(pend := Some(root)), Ended)
    case Committing => (Commit(p).0, Ended)
    case Rolling => (RollForward(p), Ended)
    case Receiving(wire, h) => (p, HasCurr(wire, h, p.curr))
    case HasCurr(wire, h, curr) =>
      var fast := OpenUnder(wire, h, curr);
      (p, if fast.Some? then Returned(Some(Received(fast.value, false)))
          else if h.epoch == NextEpoch(p.epoch) then WantsPend(wire, h)
          else Returned(None))
    case WantsPend(wire, h) =>
      (p, if p.pend.None? then Returned(None)
          else match OpenUnder(wire, h, p.pend.value)
            case None => Returned(None)
            case Some(text) => Opened(text, p.pend.value))
    case Opened(text, _) => var (q, code) := Commit(p); (q, Returned(Some(Received(text, code == 0))))
    case Returned(_) => (p, t)
    case Ended => (p, t)
  }

  function StepThread(s: Machine, i: nat): (t: Machine)
    ensures |t.threads| == |s.threads|
  {
    if i >= |s.threads| then s
    else var (p, t) := Act(s.peer, s.threads[i]); Machine(p, s.threads[i := t])
  }

  function Play(s: Machine, schedule: seq<nat>): (t: Machine)
    ensures |t.threads| == |s.threads|
    decreases |schedule|
  {
    if schedule == [] then s else StepThread(Play(s, schedule[..|schedule| - 1]), schedule[|schedule| - 1])
  }

  /** What thread i has come to, whatever the others did. */
  lemma {:induction false} Bystander(s: Machine, schedule: seq<nat>, i: nat)
    requires i < |s.threads| && i !in schedule
    ensures Play(s, schedule).threads[i] == s.threads[i]
    decreases |schedule|
  {
    if schedule != [] { Bystander(s, schedule[..|schedule| - 1], i); }
  }

  // ---- left alone, a call is one step --------------------------------------------------

  /** No other thread's step changes the session. */
  ghost predicate Undisturbed(s: Machine, schedule: seq<nat>, i: nat)
    decreases |schedule|
  {
    schedule == [] ||
    (var front, k := schedule[..|schedule| - 1], schedule[|schedule| - 1];
     Undisturbed(s, front, i) && (k == i || StepThread(Play(s, front), k).peer == Play(s, front).peer))
  }

  /** How far a receipt begun at p has come when left alone. */
  ghost predicate ReceiptAt(p: Peer, wire: Wire, h: Header, q: Peer, t: Thread) {
    match t
    case Receiving(w, g) => q == p && w == wire && g == h
    case HasCurr(w, g, curr) => q == p && w == wire && g == h && curr == p.curr
    case WantsPend(w, g) =>
      q == p && w == wire && g == h && OpenUnder(wire, h, p.curr) == None && h.epoch == NextEpoch(p.epoch)
    case Opened(text, root) =>
      && q == p && OpenUnder(wire, h, p.curr) == None && h.epoch == NextEpoch(p.epoch)
      && p.pend == Some(root) && OpenUnder(wire, h, root) == Some(text)
    case Returned(r) => (q, r) == TryDecrypt(p, wire, h)
    case _ => false
  }

  lemma ReceiptStep(p: Peer, wire: Wire, h: Header, q: Peer, t: Thread)
    requires ReceiptAt(p, wire, h, q, t)
    ensures var (q', t') := Act(q, t); ReceiptAt(p, wire, h, q', t')
  {
  }

  lemma {:induction false} ReceiptRun(s: Machine, schedule: seq<nat>, i: nat, wire: Wire, h: Header)
    requires i < |s.threads| && s.threads[i] == Receiving(wire, h) && Undisturbed(s, schedule, i)
    ensures var t := Play(s, schedule); ReceiptAt(s.peer, wire, h, t.peer, t.threads[i])
    decreases |schedule|
  {
    if schedule != [] {
      var front, k := schedule[..|schedule| - 1], schedule[|schedule| - 1];
      ReceiptRun(s, front, i, wire, h);
      var u := Play(s, front);
      if k == i { ReceiptStep(s.peer, wire, h, u.peer, u.threads[i]); }
    }
  }

  /** A receipt that nobody disturbs returns and leaves what the single step `TryDecrypt` does. */
  lemma ReceiptIsOneStep(s: Machine, schedule: seq<nat>, i: nat, wire: Wire, h: Header)
    requires i < |s.threads| && s.threads[i] == Receiving(wire, h) && Undisturbed(s, schedule, i)
    requires Play(s, schedule).threads[i].Returned?
    ensures (Play(s, schedule).peer, Play(s, schedule).threads[i].r) == TryDecrypt(s.peer, wire, h)
  {
    ReceiptRun(s, schedule, i, wire, h);
  }

  /** Left alone, the other calls are their single steps too. */
  lemma WritersAreOneStep(p: Peer, secret: Secret)
    ensures Play(Machine(p, [Evolving(secret)]), [0, 0]) == Machine(Pending(p, secret), [Ended])
    ensures Play(Machine(p, [Committing]), [0]) == Machine(Commit(p).0, [Ended])
    ensures Play(Machine(p, [Rolling]), [0]) == Machine(RollForward(p), [Ended])
  {
    assert [0, 0][..1] == [0] && [0][..0] == [];
  }

  // ---- which root a receipt commits ----------------------------------------------------

  predicate WritesPend(p: Peer, t: Thread) {
    t.Derived? || ((t.Committing? || t.Opened?) && p.pend.Some?)
  }

  /** The last thread of the schedule to write the pending root, as it was when it did. */
  function LastWriter(s: Machine, schedule: seq<nat>): Option<Thread>
    decreases |schedule|
  {
    if schedule == [] then None
    else
      var front, k := schedule[..|schedule| - 1], schedule[|schedule| - 1];
      var u := Play(s, front);
      if k < |u.threads| && WritesPend(u.peer, u.threads[k]) then Some(u.threads[k]) else LastWriter(s, front)
  }

  lemma {:induction false} LastWriterDecides(s: Machine, schedule: seq<nat>)
    ensures Play(s, schedule).peer.pend ==
            match LastWriter(s, schedule)
            case None => s.peer.pend
            case Some(t) => if t.Derived? then Some(t.root) else None
    decreases |schedule|
  {
    if schedule != [] { LastWriterDecides(s, schedule[..|schedule| - 1]); }
  }

  /**
   A receipt that opened a message under the pending root commits that root exactly when nobody wrote
   the pending root since it was read, or the last to do so set the same root again. If the last writer
   set another root, that one is committed instead, and reported; if it committed, nothing is.
   */
  lemma CommitsWhatOpened(s: Machine, i: nat, others: seq<nat>, root: Root)
    requires i < |s.threads| && s.threads[i].WantsPend? && i !in others
    requires s.peer.pend == Some(root) && OpenUnder(s.threads[i].wire, s.threads[i].h, root).Some?
    ensures var text := OpenUnder(s.threads[i].wire, s.threads[i].h, root).value;
            var read := StepThread(s, i);
            var (before, after) := (Play(read, others), StepThread(Play(read, others), i));
            match LastWriter(read, others)
            case None =>
              after.peer == Peer(root, None, NextEpoch(before.peer.epoch), 1)
              && after.threads[i] == Returned(Some(Received(text, true)))
            case Some(Derived(z)) =>
              after.peer == Peer(z, None, NextEpoch(before.peer.epoch), 1)
              && after.threads[i] == Returned(Some(Received(text, true)))
            case Some(_) =>
              after.peer == before.peer && after.threads[i] == Returned(Some(Received(text, false)))
    ensures var read := StepThread(s, i);
            var after := StepThread(Play(read, others), i);
            after.peer.curr == root && after.threads[i].r.value.committed <==>
              LastWriter(read, others) in {None, Some(Derived(root))}
  {
    hide OpenUnder, Play, LastWriter;
    var read := StepThread(s, i);
    Bystander(read, others, i);
    LastWriterDecides(read, others);
  }

  // ---- interleavings no order of whole calls has ---------------------------------------

  lemma PlaySnoc(s: Machine, schedule: seq<nat>, k: nat)
    ensures Play(s, schedule + [k]) == StepThread(Play(s, schedule), k)
  {
    assert (schedule + [k])[..|schedule|] == schedule;
  }

  /** A message of the next epoch, which only the pending root opens. */
  ghost predicate NextMessage(p: Peer, wire: Wire, h: Header, text: seq<byte>) {
    && h.epoch == NextEpoch(p.epoch) && p.pend.Some?
    && OpenUnder(wire, h, p.curr) == None && OpenUnder(wire, h, p.pend.value) == Some(text)
  }

  /** Three steps of a receipt on its own. */
  lemma ReadsPend(p: Peer, wire: Wire, h: Header, text: seq<byte>, other: Thread)
    requires NextMessage(p, wire, h, text)
    ensures Play(Machine(p, [Receiving(wire, h), other]), [0, 0, 0]) == Machine(p, [Opened(text, p.pend.value), other])
  {
    hide OpenUnder;
    var s := Machine(p, [Receiving(wire, h), other]);
    PlaySnoc(s, [], 0);
    PlaySnoc(s, [0], 0);
    assert Play(s, []) == s;
    hide Play;
    PlaySnoc(s, [0, 0], 0);
    assert [] + [0] == [0] && [0] + [0] == [0, 0] && [0, 0] + [0] == [0, 0, 0];
  }

  /** The other thread sets its pending root, then the receipt commits. */
  lemma SetsThenCommits(p: Peer, text: seq<byte>, root: Root, secret: Secret)
    ensures var s := Machine(p, [Opened(text, root), Evolving(secret)]);
            StepThread(StepThread(StepThread(s, 1), 1), 0) ==
            Machine(Peer(Evolve(secret, p.curr), None, NextEpoch(p.epoch), 1),
                    [Returned(Some(Received(text, true))), Ended])
  {
  }

  lemma AtomicOrders(p: Peer, wire: Wire, h: Header, text: seq<byte>, secret: Secret)
    requires NextMessage(p, wire, h, text) && OpenUnder(wire, h, Evolve(secret, p.curr)) == None
    ensures TryDecrypt(p, wire, h).0.curr == p.pend.value
    ensures TryDecrypt(Pending(p, secret), wire, h).1 == None
  {
  }

  lemma CommitOrders(p: Peer, wire: Wire, h: Header, text: seq<byte>)
    requires NextMessage(p, wire, h, text)
    ensures TryDecrypt(p, wire, h).1 == Some(Received(text, true))
    ensures TryDecrypt(Commit(p).0, wire, h).1 == Some(Received(text, false))
  {
  }

  /**
   A start or an apply that comes between reading the pending root and committing: the message is
   returned as having committed, and the peer is on a root that message says nothing about. In either
   order of the whole calls the peer ends on the root that opened it, or the message stays closed.
   */
  lemma WrongRootCommitted(p: Peer, wire: Wire, h: Header, text: seq<byte>, secret: Secret)
    requires NextMessage(p, wire, h, text) && OpenUnder(wire, h, Evolve(secret, p.curr)) == None
    ensures var t := Play(Machine(p, [Receiving(wire, h), Evolving(secret)]), [0, 0, 0, 1, 1, 0]);
            && t.peer.curr == Evolve(secret, p.curr) != p.pend.value
            && t.threads[0] == Returned(Some(Received(text, true)))
    ensures TryDecrypt(p, wire, h).0.curr == p.pend.value
    ensures TryDecrypt(Pending(p, secret), wire, h).1 == None
  {
    AtomicOrders(p, wire, h, text, secret);
    ReadsPend(p, wire, h, text, Evolving(secret));
    SetsThenCommits(p, text, p.pend.value, secret);
    hide OpenUnder, Play, TryDecrypt, StepThread, Act;
    var s := Machine(p, [Receiving(wire, h), Evolving(secret)]);
    PlaySnoc(s, [0, 0, 0], 1);
    PlaySnoc(s, [0, 0, 0, 1], 1);
    PlaySnoc(s, [0, 0, 0, 1, 1], 0);
    assert [0, 0, 0] + [1] == [0, 0, 0, 1] && [0, 0, 0, 1] + [1] == [0, 0, 0, 1, 1];
    assert [0, 0, 0, 1, 1] + [0] == [0, 0, 0, 1, 1, 0];
  }

  /**
   A commit that comes between reading the current root and the epoch: the message is lost, although
   either order of the whole calls opens it.
   */
  lemma MessageLost(p: Peer, wire: Wire, h: Header, text: seq<byte>)
    requires NextMessage(p, wire, h, text)
    ensures Play(Machine(p, [Receiving(wire, h), Committing]), [0, 1, 0]).threads[0] == Returned(None)
    ensures TryDecrypt(p, wire, h).1 == Some(Received(text, true))
    ensures TryDecrypt(Commit(p).0, wire, h).1 == Some(Received(text, false))
  {
    CommitOrders(p, wire, h, text);
    assert Play(Machine(p, [Receiving(wire, h), Committing]), []) == Machine(p, [Receiving(wire, h), Committing]);
    hide OpenUnder, Play, TryDecrypt;
    var s := Machine(p, [Receiving(wire, h), Committing]);
    PlaySnoc(s, [], 0);
    PlaySnoc(s, [0], 1);
    PlaySnoc(s, [0, 1], 0);
    assert [] + [0] == [0] && [0] + [1] == [0, 1] && [0, 1] + [0] == [0, 1, 0];
  }

  // ---- which root a round evolves ------------------------------------------------------

  /** A pending root is evolved from the current one exactly when that is still the one that was read. */
  lemma EvolvesCurrentIff(s: Machine, i: nat, others: seq<nat>)
    requires i < |s.threads| && s.threads[i].Evolving? && i !in others
    ensures var read := StepThread(s, i);
            var (before, after) := (Play(read, others), StepThread(Play(read, others), i));
            && after.peer == before.peer.(pend := Some(Evolve(s.threads[i].secret, s.peer.curr)))
            && (after.peer == Pending(before.peer, s.threads[i].secret) <==> before.peer.curr == s.peer.curr)
  {
    Bystander(StepThread(s, i), others, i);
  }

  // ---- what every interleaving keeps ---------------------------------------------------

  /** The roots that were current or pending at some point of the run. */
  function Seen(s: Machine, schedule: seq<nat>): set<Root>
    decreases |schedule|
  {
    var t := Play(s, schedule);
    {t.peer.curr} + (if t.peer.pend.Some? then {t.peer.pend.value} else {})
    + if schedule == [] then {} else Seen(s, schedule[..|schedule| - 1])
  }

  /** What a receipt begun as `was` may hold. */
  ghost predicate Honest(was: Thread, t: Thread, seen: set<Root>) {
    was.Receiving? ==>
      match t
      case Receiving(w, h) => w == was.wire && h == was.h
      case HasCurr(w, h, curr) => w == was.wire && h == was.h && curr in seen
      case WantsPend(w, h) => w == was.wire && h == was.h
      case Opened(text, root) => root in seen && OpenUnder(was.wire, was.h, root) == Some(text)
      case Returned(r) => r.Some? ==> exists root :: root in seen && OpenUnder(was.wire, was.h, root) == Some(r.value.text)
      case _ => false
  }

  lemma HonestStep(was: Thread, p: Peer, t: Thread, seen: set<Root>, seen': set<Root>)
    requires Honest(was, t, seen) && seen <= seen' && p.curr in seen && (p.pend.Some? ==> p.pend.value in seen)
    ensures Honest(was, t, seen') && Honest(was, Act(p, t).1, seen')
  {
    if t.HasCurr? && was.Receiving? && OpenUnder(t.wire, t.h, t.curr).Some? { assert t.curr in seen'; }
    if t.Opened? && was.Receiving? { assert t.root in seen'; }
  }

  lemma {:induction false} HonestRun(s: Machine, schedule: seq<nat>, i: nat)
    requires i < |s.threads| && s.threads[i].Receiving?
    ensures Honest(s.threads[i], Play(s, schedule).threads[i], Seen(s, schedule))
    decreases |schedule|
  {
    if schedule != [] {
      var front := schedule[..|schedule| - 1];
      HonestRun(s, front, i);
      var u := Play(s, front);
      HonestStep(s.threads[i], u.peer, u.threads[i], Seen(s, front), Seen(s, schedule));
    }
  }

  /** In every interleaving, what a receipt returns opened under a root the peer held or held pending. */
  lemma OpensOnlyHeld(s: Machine, schedule: seq<nat>, i: nat) returns (root: Root)
    requires i < |s.threads| && s.threads[i].Receiving?
    requires var t := Play(s, schedule).threads[i]; t.Returned? && t.r.Some?
    ensures root in Seen(s, schedule)
    ensures OpenUnder(s.threads[i].wire, s.threads[i].h, root) == Some(Play(s, schedule).threads[i].r.value.text)
  {
    HonestRun(s, schedule, i);
    root :| root in Seen(s, schedule)
            && OpenUnder(s.threads[i].wire, s.threads[i].h, root) == Some(Play(s, schedule).threads[i].r.value.text);
  }
}
