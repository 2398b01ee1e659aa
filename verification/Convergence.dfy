/**
 How far apart the two peers can be. Five phases describe every state in which the open round can
 still be closed. For each call there is a guard that the phases survive exactly when it holds, so
 a run stays in them exactly when all its calls meet their guards; disciplined runs do.
 */
module Convergence {
  import opened Bytes
  import opened Crypto
  import opened MessageCipher
  import opened RootState
  import opened Protocol

  predicate Agree(s: Sys) {
    s.alice.curr == s.bob.curr && s.alice.epoch == s.bob.epoch
  }

  // ---- the phases ----------------------------------------------------------------------

  /** p is at q's root and epoch, or some roll-forwards past them. */
  predicate RolledFrom(p: Peer, q: Peer) {
    q.epoch <= p.epoch && p.curr == RollN(q.curr, p.epoch - q.epoch)
  }

  /** No round is open; one peer may have rolled ahead. */
  ghost predicate Resting(s: Sys) {
    && s.alice.pend == s.bob.pend == None && Outstanding(s) == {}
    && (RolledFrom(s.alice, s.bob) || RolledFrom(s.bob, s.alice))
  }

  /** Alice holds a pending root and its ciphertext is under way. */
  ghost predicate Offered(s: Sys, ct: KemCt) {
    && s.alice.epoch == s.bob.epoch && Outstanding(s) == {ct}
    && s.alice.pend.Some? && s.alice.pend == WouldPend(s, ct) && s.bob.pend == None
  }

  /** Alice committed, and may have rolled on, before the ciphertext arrived. */
  ghost predicate Early(s: Sys, ct: KemCt) {
    && s.bob.epoch < s.alice.epoch && Outstanding(s) == {ct}
    && s.alice.pend == s.bob.pend == None && WouldPend(s, ct).Some?
    && s.alice.curr == RollN(WouldPend(s, ct).value, s.alice.epoch - s.bob.epoch - 1)
  }

  /** Both hold the same pending root. */
  ghost predicate Matched(s: Sys) {
    && s.alice.epoch == s.bob.epoch && Outstanding(s) == {}
    && s.alice.pend.Some? && s.alice.pend == s.bob.pend
  }

  /** One peer committed the root the other holds pending, and may have rolled on from it. */
  ghost predicate Ahead(s: Sys, w: Who) {
    var (p, q) := (Get(s, w), Get(s, Other(w)));
    && q.epoch < p.epoch && Outstanding(s) == {} && p.pend == None && q.pend.Some?
    && p.curr == RollN(q.pend.value, p.epoch - q.epoch - 1)
  }

  ghost predicate Together(s: Sys) {
    || Resting(s)
    || (exists ct :: Offered(s, ct))
    || (exists ct :: Early(s, ct))
    || Matched(s)
    || (exists w :: Ahead(s, w))
  }

  /** A pending root was evolved from the current one. */
  predicate PendsOwn(p: Peer) {
    p.pend.Some? ==> p.pend.value.Evolve? && p.pend.value.prev == p.curr
  }

  /** What Bob holds pending comes from a ciphertext he was given. */
  ghost predicate PendDelivered(s: Sys) {
    s.bob.pend.Some? ==> exists ct :: ct in s.applied && WouldPend(s, ct) == s.bob.pend
  }

  ghost predicate Inv(s: Sys) {
    && Base(s) && Depths(s) && Together(s)
    && PendsOwn(s.alice) && PendsOwn(s.bob) && PendDelivered(s)
    && s.applied <= s.cts && BadLength !in s.cts
    && (s.heard ==> s.alice.epoch <= s.bob.epoch)
  }

  // ---- the guards ----------------------------------------------------------------------

  /**
   What a call must find for the peers to stay together.
   - A start needs a settled pair and a fresh ciphertext; an old coin is harmless only if it pends
     what is pending.
   - Bob may be given the ciphertext under way, or one that yields what he holds pending.
   - A peer may roll when it has nothing pending, Alice even with her ciphertext under way, Bob only
     with nothing under way.
   */
  ghost predicate Keeps(s: Sys, l: Label) {
    match l
    case Start(coin) =>
      || |s.pk| != ML_KEM_PK_LEN
      || (if KemCt(s.pk, coin) in s.cts then s.alice.pend == Some(Evolve(Shared(s.pk, coin), s.alice.curr))
          else Resting(s) && Agree(s))
    case Apply(ct) => ct.BadLength? || ct in Outstanding(s) || (s.bob.pend.Some? && WouldPend(s, ct) == s.bob.pend)
    case RollOne(w) =>
      Get(s, w).pend == None && (w == Bob ==> Outstanding(s) == {})
    case _ => true
  }

  /** The phase depends on nothing but the key, the outstanding ciphertexts, the roots and the epochs. */
  ghost predicate SameShape(s: Sys, t: Sys) {
    && t.pk == s.pk && Outstanding(t) == Outstanding(s)
    && forall w :: && Get(t, w).curr == Get(s, w).curr && Get(t, w).pend == Get(s, w).pend
                   && Get(t, w).epoch == Get(s, w).epoch
  }

  lemma SameTogether(s: Sys, t: Sys)
    requires Together(s) && SameShape(s, t)
    ensures Together(t)
  {
    assert Get(t, Alice).curr == t.alice.curr && Get(t, Bob).curr == t.bob.curr;
    if Resting(s) {
      assert Resting(t);
    } else if ct :| Offered(s, ct) {
      assert Offered(t, ct);
    } else if ct :| Early(s, ct) {
      assert Early(t, ct);
    } else if Matched(s) {
      assert Matched(t);
    } else {
      var v :| Ahead(s, v);
      assert Ahead(t, v);
    }
  }

  // ---- one step ------------------------------------------------------------------------

  /** A commit by either peer, whether asked for or inferred from a message. */
  lemma CommitTogether(s: Sys, w: Who, t: Sys)
    requires Together(s) && Get(s, w).epoch < U32_MAX
    requires t.pk == s.pk && t.cts == s.cts && t.applied == s.applied
    requires Get(t, w) == Commit(Get(s, w)).0 && Get(t, Other(w)) == Get(s, Other(w))
    ensures Together(t)
  {
    if Resting(s) {
      assert Resting(t);
    } else if ct :| Offered(s, ct) {
      if w == Alice { assert Early(t, ct); } else { assert Offered(t, ct); }
    } else if ct :| Early(s, ct) {
      assert Early(t, ct);
    } else if Matched(s) {
      assert Ahead(t, w);
    } else {
      var v :| Ahead(s, v);
      if v == w { assert Ahead(t, w); } else { assert Resting(t); }
    }
  }

  /** A receipt either changes nothing or commits. */
  lemma ReceiveIsCommit(p: Peer, wire: Wire, h: Header)
    ensures TryDecrypt(p, wire, h).0 == p || TryDecrypt(p, wire, h).0 == Commit(p).0
  {
  }

  lemma ReceiveTogether(s: Sys, w: Who, wire: Wire, h: Header)
    requires Together(s) && Get(s, w).epoch < U32_MAX
    ensures Together(Step(s, Receive(w, wire, h)))
  {
    var t := Step(s, Receive(w, wire, h));
    ReceiveIsCommit(Get(s, w), wire, h);
    if TryDecrypt(Get(s, w), wire, h).0 == Get(s, w) {
      SameTogether(s, t);
    } else {
      CommitTogether(s, w, t);
    }
  }

  lemma FreshStartIff(s: Sys, coin: nat)
    requires Inv(s) && |s.pk| == ML_KEM_PK_LEN && KemCt(s.pk, coin) !in s.cts
    ensures Together(Step(s, Start(coin))) <==> Resting(s) && Agree(s)
  {
    var t, ct := Step(s, Start(coin)), KemCt(s.pk, coin);
    assert t.cts == s.cts + {ct} && t.applied == s.applied && t.bob == s.bob;
    assert t.alice == Pending(s.alice, Shared(s.pk, coin));
    assert ct in Outstanding(t);
    if Resting(s) && Agree(s) {
      assert Outstanding(t) == {ct};
      assert Offered(t, ct);
    } else if Together(t) {
      var c :| Offered(t, c);
      assert false;
    }
  }

  /** Rolling one root and evolving it lead apart. */
  lemma OffTheLine(x: Root, r: Root, n: nat)
    requires x.Evolve?
    ensures RollN(x, n) != RollN(r, n + 1)
  {
    RollNFirst(r, n);
    if RollN(x, n) == RollN(r, n + 1) { RollNInjective(x, Roll(r), n); }
  }

  lemma OldStartIff(s: Sys, coin: nat)
    requires Inv(s) && |s.pk| == ML_KEM_PK_LEN && KemCt(s.pk, coin) in s.cts
    ensures Together(Step(s, Start(coin))) <==> s.alice.pend == Some(Evolve(Shared(s.pk, coin), s.alice.curr))
  {
    var t := Step(s, Start(coin));
    assert t.cts == s.cts + {KemCt(s.pk, coin)} == s.cts && t.applied == s.applied && t.bob == s.bob;
    assert t.alice == Pending(s.alice, Shared(s.pk, coin));
    assert Outstanding(t) == Outstanding(s);
    if t.alice.pend == s.alice.pend {
      SameTogether(s, t);
    } else if Ahead(t, Bob) {
      var n := s.bob.epoch - s.alice.epoch - 1;
      if Resting(s) {
        OffTheLine(t.alice.pend.value, s.alice.curr, n);
      } else {
        RollNInjective(t.alice.pend.value, s.alice.pend.value, n);
      }
      assert false;
    }
  }

  lemma StartIff(s: Sys, coin: nat)
    requires Inv(s)
    ensures Together(Step(s, Start(coin))) <==> Keeps(s, Start(coin))
  {
    if |s.pk| != ML_KEM_PK_LEN {
      SameTogether(s, Step(s, Start(coin)));
    } else if KemCt(s.pk, coin) in s.cts {
      OldStartIff(s, coin);
    } else {
      FreshStartIff(s, coin);
    }
  }

  /** A ciphertext that is not under way leaves Bob in a phase only if it changes nothing. */
  lemma StrayIff(s: Sys, ct: KemCt)
    requires Inv(s) && ct.KemCt? && ct !in Outstanding(s)
    ensures Together(Step(s, Apply(ct))) <==> s.bob.pend.Some? && WouldPend(s, ct) == s.bob.pend
  {
    var t := Step(s, Apply(ct));
    assert Outstanding(t) == Outstanding(s) && t.alice == s.alice && t.bob.pend == WouldPend(s, ct);
    if s.bob.pend == t.bob.pend {
      SameTogether(s, t);
    } else if Together(t) {
      if Matched(t) {
        assert false;
      } else {
        assert Ahead(t, Alice);
        if Resting(s) {
          OffTheLine(t.bob.pend.value, s.bob.curr, s.alice.epoch - s.bob.epoch - 1);
        } else {
          RollNInjective(t.bob.pend.value, s.bob.pend.value, s.alice.epoch - s.bob.epoch - 1);
        }
        assert false;
      }
    }
  }

  /** The ciphertext under way may always be delivered. */
  lemma DeliverTogether(s: Sys, ct: KemCt)
    requires Together(s) && ct in Outstanding(s)
    ensures Together(Step(s, Apply(ct)))
  {
    var t := Step(s, Apply(ct));
    assert Outstanding(s) == {ct} && Outstanding(t) == {};
    if Offered(s, ct) { assert Matched(t); } else { assert Ahead(t, Alice); }
  }

  lemma ApplyIff(s: Sys, ct: KemCt)
    requires Inv(s)
    ensures Together(Step(s, Apply(ct))) <==> Keeps(s, Apply(ct))
  {
    var t := Step(s, Apply(ct));
    if ct.BadLength? {
      SameTogether(s, t);
    } else if ct in Outstanding(s) {
      DeliverTogether(s, ct);
    } else {
      StrayIff(s, ct);
    }
  }

  /** With nothing open, either peer may roll: it catches up or moves on. */
  lemma RestingRoll(s: Sys, w: Who)
    requires Resting(s) && Get(s, w).epoch < U32_MAX
    ensures Resting(Step(s, RollOne(w)))
  {
    var t := Step(s, RollOne(w));
    var (p, q) := (Get(s, w), Get(s, Other(w)));
    assert Outstanding(t) == Outstanding(s);
    if p.epoch < q.epoch {
      RollNFirst(p.curr, q.epoch - p.epoch - 1);
      assert RolledFrom(Get(t, Other(w)), Get(t, w));
    } else {
      assert RolledFrom(p, q);
      assert RolledFrom(Get(t, w), Get(t, Other(w)));
    }
  }

  lemma AliceRollIff(s: Sys)
    requires Inv(s) && s.alice.epoch < U32_MAX
    ensures Together(Step(s, RollOne(Alice))) <==> s.alice.pend == None
  {
    var t := Step(s, RollOne(Alice));
    assert Outstanding(t) == Outstanding(s);
    if s.alice.pend == None {
      if Resting(s) {
        RestingRoll(s, Alice);
      } else if ct :| Early(s, ct) {
        assert WouldPend(t, ct) == WouldPend(s, ct);
        assert Early(t, ct);
      } else {
        assert Ahead(s, Alice);
        assert Ahead(t, Alice);
      }
    }
  }

  lemma BobRollIff(s: Sys)
    requires Inv(s) && s.bob.epoch < U32_MAX
    ensures Together(Step(s, RollOne(Bob))) <==> s.bob.pend == None && Outstanding(s) == {}
  {
    var t := Step(s, RollOne(Bob));
    assert Outstanding(t) == Outstanding(s);
    if s.bob.pend == None && Outstanding(s) == {} {
      if Resting(s) {
        RestingRoll(s, Bob);
      } else {
        assert Ahead(s, Bob);
        assert Ahead(t, Bob);
      }
    } else if ct :| Early(t, ct) {
      assert Early(s, ct);
      OffTheLine(WouldPend(t, ct).value, WouldPend(s, ct).value, s.alice.epoch - t.bob.epoch - 1);
      assert false;
    }
  }

  /**
   The guards are exact. In every state the peers can be in, a call leaves them together exactly
   when it meets its guard.
   */
  lemma GuardIff(s: Sys, l: Label)
    requires Inv(s) && Allowed(s, l, Any)
    ensures Together(Step(s, l)) <==> Keeps(s, l)
  {
    match l {
      case Start(coin) => StartIff(s, coin);
      case Apply(ct) => ApplyIff(s, ct);
      case CommitBy(w) => CommitTogether(s, w, Step(s, l));
      case RollOne(w) => if w == Alice { AliceRollIff(s); } else { BobRollIff(s); }
      case Send(_, _, _, _, _) => SameTogether(s, Step(s, l));
      case Receive(w, wire, h) => ReceiveTogether(s, w, wire, h);
    }
  }

  /** Bob leads by no more than the round Alice has yet to commit: a disciplined Bob does not roll ahead. */
  predicate AliceLeads(s: Sys) {
    s.bob.epoch <= s.alice.epoch + if s.alice.pend.Some? then 1 else 0
  }

  /** Disciplined calls meet their guards. */
  lemma DisciplineKeeps(s: Sys, l: Label)
    requires Inv(s) && Allowed(s, l, Disciplined) && (l.Start? ==> AliceLeads(s))
    ensures Keeps(s, l)
  {
    if l.Start? {
      if ct :| Early(s, ct) { assert false; }
      if w :| Ahead(s, w) { assert false; }
    }
  }

  lemma CommitLeads(s: Sys, w: Who, t: Sys)
    requires Together(s) && AliceLeads(s) && Get(s, w).epoch < U32_MAX
    requires Get(t, w) == Commit(Get(s, w)).0 && Get(t, Other(w)) == Get(s, Other(w))
    ensures AliceLeads(t)
  {
  }

  lemma ReceiveLeads(s: Sys, w: Who, wire: Wire, h: Header)
    requires Together(s) && AliceLeads(s) && Get(s, w).epoch < U32_MAX
    ensures AliceLeads(Step(s, Receive(w, wire, h)))
  {
    hide Together;
    ReceiveIsCommit(Get(s, w), wire, h);
    if TryDecrypt(Get(s, w), wire, h).0 != Get(s, w) { CommitLeads(s, w, Step(s, Receive(w, wire, h))); }
  }

  lemma LeadsStep(s: Sys, l: Label)
    requires Together(s) && Allowed(s, l, Disciplined) && AliceLeads(s)
    ensures AliceLeads(Step(s, l))
  {
    hide Together, TryDecrypt, Authentic;
    match l {
      case CommitBy(w) => CommitLeads(s, w, Step(s, l));
      case Receive(w, wire, h) => ReceiveLeads(s, w, wire, h);
      case _ =>
    }
  }

  /** A guarded roll is never over a pending root. */
  lemma KeepsNoRollPending(s: Sys, l: Label)
    requires Keeps(s, l) && Allowed(s, l, Any)
    ensures Allowed(s, l, NoRollPending)
  {
  }

  lemma HeardStep(s: Sys, l: Label)
    requires Base(s) && Allowed(s, l, Any) && (s.heard ==> s.alice.epoch <= s.bob.epoch)
    ensures var t := Step(s, l); t.heard ==> t.alice.epoch <= t.bob.epoch
  {
    var t := Step(s, l);
    Forward(s, l, Bob);
    if t.heard && !(s.heard && t.alice.epoch == s.alice.epoch) {
      var i: nat :| Carries(s.log, l.wire, i) && s.log[i].from == Bob && s.log[i].header.epoch == t.alice.epoch;
      assert Holding(Bob, s.log[i].root, s.log[i].header.epoch) in s.held;
    }
  }

  lemma PendsOwnStep(s: Sys, l: Label, w: Who)
    requires PendsOwn(Get(s, w)) && Allowed(s, l, NoRollPending)
    ensures PendsOwn(Get(Step(s, l), w))
  {
  }

  /** Only one ciphertext yields a given pending root. */
  lemma WouldPendInjective(s: Sys, ct: KemCt, ct': KemCt)
    requires WouldPend(s, ct).Some? && WouldPend(s, ct) == WouldPend(s, ct')
    ensures ct == ct'
  {
  }

  lemma DeliveredStep(s: Sys, l: Label)
    requires PendDelivered(s) && s.applied <= s.cts && BadLength !in s.cts && Keeps(s, l) && Allowed(s, l, Any)
    ensures var t := Step(s, l); PendDelivered(t) && t.applied <= t.cts && BadLength !in t.cts
  {
    var t := Step(s, l);
    if t.bob.pend.Some? {
      if l.Apply? && l.ct.KemCt? {
        assert WouldPend(t, l.ct) == t.bob.pend && l.ct in t.applied;
        if l.ct !in Outstanding(s) {
          var c :| c in s.applied && WouldPend(s, c) == s.bob.pend;
          WouldPendInjective(s, c, l.ct);
        }
      } else {
        assert t.bob.pend == s.bob.pend && t.bob.curr == s.bob.curr;
        var c :| c in s.applied && WouldPend(s, c) == s.bob.pend;
        assert c in t.applied && WouldPend(t, c) == t.bob.pend;
      }
    }
  }

  lemma InvStep(s: Sys, l: Label)
    requires Inv(s) && Keeps(s, l) && Allowed(s, l, Any)
    ensures Inv(Step(s, l))
  {
    KeepsNoRollPending(s, l);
    BaseStep(s, l);
    DepthsStep(s, l);
    GuardIff(s, l);
    PendsOwnStep(s, l, Alice);
    PendsOwnStep(s, l, Bob);
    DeliveredStep(s, l);
    HeardStep(s, l);
  }

  lemma DisciplinedStep(s: Sys, l: Label)
    requires Inv(s) && Allowed(s, l, Disciplined) && (l.Start? ==> AliceLeads(s))
    ensures Inv(Step(s, l))
  {
    DisciplineKeeps(s, l);
    InvStep(s, l);
  }

  // ---- whole runs ----------------------------------------------------------------------

  /** Every call of the run meets its guard. */
  ghost predicate AllKeep(s: Sys, ls: seq<Label>)
    decreases |ls|
  {
    ls == [] || (Keeps(s, ls[0]) && AllKeep(Step(s, ls[0]), ls[1..]))
  }

  ghost predicate Guarded(s: Sys, ls: seq<Label>) {
    Legal(s, ls, Any) && AllKeep(s, ls)
  }

  /** The peers are together after every call of the run. */
  ghost predicate StayTogether(s: Sys, ls: seq<Label>)
    decreases |ls|
  {
    Together(s) && (ls == [] || StayTogether(Step(s, ls[0]), ls[1..]))
  }

  lemma {:induction false} InvRun(s: Sys, ls: seq<Label>)
    requires Inv(s) && Guarded(s, ls)
    ensures Inv(Run(s, ls))
    decreases |ls|
  {
    if ls != [] {
      InvStep(s, ls[0]);
      InvRun(Step(s, ls[0]), ls[1..]);
    }
  }

  lemma {:induction false} StayTogetherFrom(s: Sys, ls: seq<Label>)
    requires Inv(s) && Legal(s, ls, Any)
    ensures StayTogether(s, ls) <==> AllKeep(s, ls)
    decreases |ls|
  {
    if ls != [] {
      GuardIff(s, ls[0]);
      if Keeps(s, ls[0]) {
        InvStep(s, ls[0]);
        StayTogetherFrom(Step(s, ls[0]), ls[1..]);
      }
    }
  }

  lemma InvInitial(pk: seq<byte>, seed: seq<byte>)
    ensures Inv(Initial(pk, seed))
  {
    assert Resting(Initial(pk, seed));
  }

  /**
   Staying together. In every run whatever, the peers are together after each call exactly when
   each call met its guard.
   */
  lemma StayTogetherIff(pk: seq<byte>, seed: seq<byte>, ls: seq<Label>)
    requires Legal(Initial(pk, seed), ls, Any)
    ensures StayTogether(Initial(pk, seed), ls) <==> AllKeep(Initial(pk, seed), ls)
  {
    InvInitial(pk, seed);
    StayTogetherFrom(Initial(pk, seed), ls);
  }

  lemma {:induction false} DisciplinedRunFrom(s: Sys, ls: seq<Label>)
    requires Inv(s) && AliceLeads(s) && Legal(s, ls, Disciplined)
    ensures Guarded(s, ls)
    decreases |ls|
  {
    if ls != [] {
      DisciplineKeeps(s, ls[0]);
      DisciplinedStep(s, ls[0]);
      LeadsStep(s, ls[0]);
      DisciplinedRunFrom(Step(s, ls[0]), ls[1..]);
    }
  }

  /** Every disciplined run is guarded. */
  lemma DisciplinedRun(pk: seq<byte>, seed: seq<byte>, ls: seq<Label>)
    requires Legal(Initial(pk, seed), ls, Disciplined)
    ensures Guarded(Initial(pk, seed), ls)
  {
    InvInitial(pk, seed);
    DisciplinedRunFrom(Initial(pk, seed), ls);
  }

  /** What the guarded runs reach, the disciplined ones among them. */
  lemma InvReached(pk: seq<byte>, seed: seq<byte>, ls: seq<Label>)
    requires Guarded(Initial(pk, seed), ls)
    ensures Inv(Run(Initial(pk, seed), ls))
  {
    InvInitial(pk, seed);
    InvRun(Initial(pk, seed), ls);
  }

  // ---- the convergence theorem ---------------------------------------------------------

  /**
   Peer w is ahead by one round, on the root the other holds pending or will derive from the one
   ciphertext under way, and may have rolled on from it.
   */
  ghost predicate RoundAhead(s: Sys, w: Who) {
    var (p, q) := (Get(s, w), Get(s, Other(w)));
    && q.epoch < p.epoch
    && exists x :: p.curr == RollN(x, p.epoch - q.epoch - 1)
                   && (q.pend == Some(x) || (w == Alice && exists ct :: Outstanding(s) == {ct} && WouldPend(s, ct) == Some(x)))
  }

  /** Peer w is some roll-forwards ahead, and no round is open. */
  ghost predicate RolledAhead(s: Sys, w: Who) {
    && Get(s, Other(w)).epoch < Get(s, w).epoch && RolledFrom(Get(s, w), Get(s, Other(w)))
    && s.alice.pend == s.bob.pend == None && Outstanding(s) == {}
  }

  ghost predicate Converged(s: Sys) {
    Agree(s) || exists w :: RoundAhead(s, w) || RolledAhead(s, w)
  }

  lemma InvConverged(s: Sys)
    requires Inv(s)
    ensures Converged(s)
  {
    if Resting(s) {
      assert Agree(s) || RolledAhead(s, Alice) || RolledAhead(s, Bob);
    } else if ct :| Early(s, ct) {
      var x := WouldPend(s, ct).value;
      assert s.alice.curr == RollN(x, s.alice.epoch - s.bob.epoch - 1);
      assert RoundAhead(s, Alice);
    } else if w :| Ahead(s, w) {
      var x := Get(s, Other(w)).pend.value;
      assert Get(s, w).curr == RollN(x, Get(s, w).epoch - Get(s, Other(w)).epoch - 1);
      assert RoundAhead(s, w);
    } else {
      assert Agree(s);
    }
  }

  /**
   In every guarded run the peers agree, or one is a round ahead on the root the other holds pending
   or will derive, or one has rolled ahead.
   */
  lemma Converges(pk: seq<byte>, seed: seq<byte>, ls: seq<Label>)
    requires Guarded(Initial(pk, seed), ls)
    ensures Converged(Run(Initial(pk, seed), ls))
  {
    InvReached(pk, seed, ls);
    InvConverged(Run(Initial(pk, seed), ls));
  }

  predicate RollFree(ls: seq<Label>) {
    forall i :: 0 <= i < |ls| ==> !ls[i].RollOne?
  }

  /** Neither peer is more than the open round ahead. */
  ghost predicate Close(s: Sys) {
    s.alice.epoch <= s.bob.epoch + 1 && s.bob.epoch <= s.alice.epoch + 1 && (Resting(s) ==> Agree(s))
  }

  /** A commit keeps the peers close. */
  lemma CommitClose(s: Sys, w: Who, t: Sys)
    requires Together(s) && Get(s, w).epoch < U32_MAX && Close(s)
    requires Outstanding(t) == Outstanding(s)
    requires Get(t, w) == Commit(Get(s, w)).0 && Get(t, Other(w)) == Get(s, Other(w))
    ensures Close(t)
  {
    if Resting(t) && !Resting(s) {
      var v :| Ahead(s, v);
      assert v == Other(w);
    }
  }

  lemma ReceiveClose(s: Sys, w: Who, wire: Wire, h: Header)
    requires Together(s) && Get(s, w).epoch < U32_MAX && Close(s)
    ensures Close(Step(s, Receive(w, wire, h)))
  {
    var t := Step(s, Receive(w, wire, h));
    assert Outstanding(t) == Outstanding(s);
    ReceiveIsCommit(Get(s, w), wire, h);
    if TryDecrypt(Get(s, w), wire, h).0 != Get(s, w) { CommitClose(s, w, t); }
  }

  /** Neither half of a round moves an epoch, and each leaves a root pending or changes nothing. */
  lemma HalfClose(s: Sys, l: Label)
    requires Close(s) && (l.Start? || l.Apply?)
    ensures Close(Step(s, l))
  {
    var t := Step(s, l);
    if Resting(t) { assert Outstanding(t) == Outstanding(s); }
  }

  lemma CloseStep(s: Sys, l: Label)
    requires Inv(s) && Allowed(s, l, Any) && !l.RollOne? && Close(s)
    ensures Close(Step(s, l))
  {
    hide Base, Depths, TryDecrypt, Authentic;
    match l {
      case CommitBy(w) => CommitClose(s, w, Step(s, l));
      case Receive(w, wire, h) => ReceiveClose(s, w, wire, h);
      case Send(_, _, _, _, _) => assert Outstanding(Step(s, l)) == Outstanding(s);
      case _ => HalfClose(s, l);
    }
  }

  lemma {:induction false} CloseRun(s: Sys, ls: seq<Label>)
    requires Inv(s) && Guarded(s, ls) && RollFree(ls) && Close(s)
    ensures Close(Run(s, ls))
    decreases |ls|
  {
    if ls != [] {
      InvStep(s, ls[0]);
      CloseStep(s, ls[0]);
      assert RollFree(ls[1..]);
      CloseRun(Step(s, ls[0]), ls[1..]);
    }
  }

  /** One peer is exactly one epoch ahead, on the root the other holds pending or will derive. */
  ghost predicate OneAhead(s: Sys, w: Who) {
    && Get(s, w).epoch == Get(s, Other(w)).epoch + 1
    && (|| Get(s, Other(w)).pend == Some(Get(s, w).curr)
        || (w == Alice && exists ct :: Outstanding(s) == {ct} && WouldPend(s, ct) == Some(s.alice.curr)))
  }

  /** In a guarded run without rolls the peers agree or exactly one is one epoch ahead. */
  lemma ConvergesWithoutRolls(pk: seq<byte>, seed: seq<byte>, ls: seq<Label>)
    requires Guarded(Initial(pk, seed), ls) && RollFree(ls)
    ensures var s := Run(Initial(pk, seed), ls);
            Agree(s) || OneAhead(s, Alice) || OneAhead(s, Bob)
  {
    var s := Run(Initial(pk, seed), ls);
    InvInitial(pk, seed);
    InvRun(Initial(pk, seed), ls);
    CloseRun(Initial(pk, seed), ls);
    InvConverged(s);
    if RoundAhead(s, Bob) { assert OneAhead(s, Bob); }
    if RoundAhead(s, Alice) { assert OneAhead(s, Alice); }
  }
}
