/**
 From every guarded state a short disciplined schedule brings the peers back to agreement, and
 rolling to the epoch read off a packet does so exactly when no round is open.
 */
module Resync {
  import opened Bytes
  import opened Crypto
  import opened MessageCipher
  import opened RootState
  import opened Protocol
  import opened Convergence

  /** Equal root, equal epoch, nothing pending and nothing under way. */
  ghost predicate Settled(s: Sys) {
    Agree(s) && s.alice.pend == s.bob.pend == None && Outstanding(s) == {}
  }

  lemma Single(s: Sys, l: Label, g: Regime)
    requires Allowed(s, l, g)
    ensures Legal(s, [l], g) && Run(s, [l]) == Step(s, l)
  {
    assert [l][1..] == [];
  }

  lemma Cons(s: Sys, l: Label, ms: seq<Label>, g: Regime)
    requires Allowed(s, l, g) && Legal(Step(s, l), ms, g)
    ensures Legal(s, [l] + ms, g) && Run(s, [l] + ms) == Run(Step(s, l), ms)
  {
    assert ([l] + ms)[1..] == ms;
  }

  /** Room left before the 32-bit epoch and the 64-bit counter wrap. */
  predicate Roomy(s: Sys) {
    && s.alice.epoch < U32_MAX && s.bob.epoch < U32_MAX
    && s.alice.counter + 1 < U64_LIMIT && s.bob.counter + 1 < U64_LIMIT
  }

  /** Any message whatever under the pairing's stamp. */
  function Hello(w: Who, stamp: Stamp): Label {
    Send(w, stamp, true, 0, [])
  }

  function HelloOf(s: Sys, w: Who, stamp: Stamp): Sent {
    Sent(w, Get(s, w).curr, Header(stamp, true, Get(s, w).epoch, Get(s, w).counter, 0), [])
  }

  function Hear(s: Sys, w: Who, stamp: Stamp): Label {
    Receive(Other(w), WireOf(HelloOf(s, w, stamp)), HelloOf(s, w, stamp).header)
  }

  /**
   One message from the peer that is ahead makes the other commit by itself and settles the pair
   exactly when it is one epoch ahead; from further ahead the message is not opened.
   */
  lemma OneMessageSettles(s: Sys, w: Who, stamp: Stamp)
    requires Inv(s) && Ahead(s, w) && Roomy(s)
    ensures Legal(s, [Hello(w, stamp), Hear(s, w, stamp)], Disciplined)
    ensures var one := Get(s, w).epoch == Get(s, Other(w)).epoch + 1;
            && (Settled(Run(s, [Hello(w, stamp), Hear(s, w, stamp)])) <==> one)
            && TryDecrypt(Get(s, Other(w)), WireOf(HelloOf(s, w, stamp)), HelloOf(s, w, stamp).header).1 ==
               if one then Some(Received([], true)) else None
  {
    var m, p := HelloOf(s, w, stamp), Get(s, Other(w));
    var t := Step(s, Hello(w, stamp));
    assert t.log == s.log + [m] && Get(t, Other(w)) == p;
    assert Carries(t.log, WireOf(m), |s.log|);
    HelloOpens(s, w, stamp);
    Single(t, Hear(s, w, stamp), Disciplined);
    Cons(s, Hello(w, stamp), [Hear(s, w, stamp)], Disciplined);
    assert [Hello(w, stamp)] + [Hear(s, w, stamp)] == [Hello(w, stamp), Hear(s, w, stamp)];
    assert Outstanding(Step(t, Hear(s, w, stamp))) == Outstanding(s);
  }

  lemma HelloOpens(s: Sys, w: Who, stamp: Stamp)
    requires Inv(s) && Ahead(s, w) && Roomy(s)
    ensures var (m, p) := (HelloOf(s, w, stamp), Get(s, Other(w)));
            TryDecrypt(p, WireOf(m), m.header) ==
            if Get(s, w).epoch == p.epoch + 1 then (Commit(p).0, Some(Received([], true))) else (p, None)
  {
    var m, p := HelloOf(s, w, stamp), Get(s, Other(w));
    assert PeerDepths(Get(s, w)) && PeerDepths(p);
    KeysIffAgree(m.root, m.header.epoch, m.header.msgSeq, p.curr, m.header.epoch, m.header.msgSeq);
    DecryptIffAgree([], DeriveMessageKey(m.root, m.header.epoch, m.header.msgSeq), m.header,
                    DeriveMessageKey(p.curr, m.header.epoch, m.header.msgSeq), m.header);
  }

  /** How many epochs apart the peers are. */
  function Lag(s: Sys): nat {
    if s.bob.epoch <= s.alice.epoch then s.alice.epoch - s.bob.epoch else s.bob.epoch - s.alice.epoch
  }

  /** The peer that is behind rolls until it has caught up. */
  lemma {:induction false} CatchUp(s: Sys) returns (ls: seq<Label>)
    requires Inv(s) && Resting(s)
    ensures |ls| == Lag(s) && Legal(s, ls, Disciplined) && Settled(Run(s, ls))
    decreases Lag(s)
  {
    if Lag(s) == 0 {
      ls := [];
    } else {
      var w := if s.bob.epoch < s.alice.epoch then Bob else Alice;
      DisciplinedStep(s, RollOne(w));
      RestingRoll(s, w);
      var rest := CatchUp(Step(s, RollOne(w)));
      Cons(s, RollOne(w), rest, Disciplined);
      ls := [RollOne(w)] + rest;
    }
  }

  /** The peer that is ahead rolled on past the open round: the other commits it and catches up. */
  lemma CommitAndCatchUp(s: Sys, w: Who) returns (ls: seq<Label>)
    requires Inv(s) && Ahead(s, w)
    ensures |ls| == Lag(s) && Legal(s, ls, Disciplined) && Settled(Run(s, ls))
  {
    var t := Step(s, CommitBy(Other(w)));
    DisciplinedStep(s, CommitBy(Other(w)));
    assert Outstanding(t) == Outstanding(s);
    assert RolledFrom(Get(t, w), Get(t, Other(w)));
    var rest := CatchUp(t);
    Cons(s, CommitBy(Other(w)), rest, Disciplined);
    ls := [CommitBy(Other(w))] + rest;
  }

  /** A round one peer has committed: a message if it is one epoch ahead, otherwise a commit and rolls. */
  lemma SettleAhead(s: Sys, w: Who, stamp: Stamp) returns (ls: seq<Label>)
    requires Inv(s) && Ahead(s, w) && Roomy(s)
    ensures |ls| < Steps(s)
    ensures Legal(s, ls, Disciplined) && Settled(Run(s, ls))
  {
    if Get(s, w).epoch == Get(s, Other(w)).epoch + 1 {
      OneMessageSettles(s, w, stamp);
      ls := [Hello(w, stamp), Hear(s, w, stamp)];
    } else {
      ls := CommitAndCatchUp(s, w);
    }
  }

  /** Matched pending roots: Alice commits and sends one message. */
  lemma SettleMatched(s: Sys, stamp: Stamp) returns (ls: seq<Label>)
    requires Inv(s) && Matched(s) && Roomy(s) && s.alice.epoch + 1 < U32_MAX
    ensures |ls| == 3 && Legal(s, ls, Disciplined) && Settled(Run(s, ls))
  {
    var t := Step(s, CommitBy(Alice));
    DisciplinedStep(s, CommitBy(Alice));
    assert Outstanding(t) == Outstanding(s);
    OneMessageSettles(t, Alice, stamp);
    Cons(s, CommitBy(Alice), [Hello(Alice, stamp), Hear(t, Alice, stamp)], Disciplined);
    ls := [CommitBy(Alice)] + [Hello(Alice, stamp), Hear(t, Alice, stamp)];
  }

  /** A ciphertext under way is delivered first. */
  lemma SettleUndelivered(s: Sys, ct: KemCt, stamp: Stamp) returns (ls: seq<Label>)
    requires Inv(s) && (Offered(s, ct) || Early(s, ct)) && Roomy(s) && s.alice.epoch + 1 < U32_MAX
    ensures |ls| <= Steps(s) && Legal(s, ls, Disciplined) && Settled(Run(s, ls))
  {
    assert ct in Outstanding(s);
    var t := Step(s, Apply(ct));
    DisciplinedStep(s, Apply(ct));
    assert Outstanding(t) == {};
    var rest;
    if Offered(s, ct) {
      rest := SettleMatched(t, stamp);
    } else {
      rest := SettleAhead(t, Alice, stamp);
    }
    Cons(s, Apply(ct), rest, Disciplined);
    ls := [Apply(ct)] + rest;
  }

  /** How many steps bring the peers to agreement. */
  ghost function Steps(s: Sys): nat {
    if Resting(s) then Lag(s) else if Lag(s) <= 3 then 4 else Lag(s) + 1
  }

  /**
   Resynchronisation. From every state of a guarded run, below wrap-around, a disciplined schedule
   settles the pair. With no round open the peer behind needs one roll for each epoch. An open round
   takes at most four steps, or one more than the lead where a peer has rolled on past it.
   */
  lemma Resynchronise(pk: seq<byte>, seed: seq<byte>, ls: seq<Label>, stamp: Stamp) returns (more: seq<Label>)
    requires Guarded(Initial(pk, seed), ls)
    requires Roomy(Run(Initial(pk, seed), ls)) && Run(Initial(pk, seed), ls).alice.epoch + 1 < U32_MAX
    ensures Legal(Run(Initial(pk, seed), ls), more, Disciplined)
    ensures Settled(Run(Run(Initial(pk, seed), ls), more))
    ensures |more| <= Steps(Run(Initial(pk, seed), ls))
  {
    var s := Run(Initial(pk, seed), ls);
    InvReached(pk, seed, ls);
    if Resting(s) {
      more := CatchUp(s);
    } else if Matched(s) {
      more := SettleMatched(s, stamp);
    } else if ct :| Offered(s, ct) || Early(s, ct) {
      more := SettleUndelivered(s, ct, stamp);
    } else {
      var w :| Ahead(s, w);
      more := SettleAhead(s, w, stamp);
    }
  }

  // ---- rolling to the epoch read off a packet ------------------------------------------

  /** Bob recovers to epoch e, as far as the cap lets him. */
  function Recovered(s: Sys, e: u32): Sys {
    s.(bob := Recover(s.bob, e).0)
  }

  function Rolls(w: Who, n: nat): seq<Label> {
    seq(n, _ => RollOne(w))
  }

  /** A recovery by n epochs is n single rolls. */
  lemma {:induction false} RecoverIsRolls(s: Sys, w: Who, n: nat)
    requires Get(s, w).epoch + n <= U32_MAX
    ensures Legal(s, Rolls(w, n), if Get(s, w).pend == None then NoRollPending else Any)
    ensures var (t, p) := (Run(s, Rolls(w, n)), Get(s, w));
            && Get(t, w) == RollBy(p, n) && Get(t, Other(w)) == Get(s, Other(w)) && s.held <= t.held
            && (Holding(w, p.curr, p.epoch) in s.held ==> Holding(w, Get(t, w).curr, Get(t, w).epoch) in t.held)
    decreases n
  {
    if n > 0 {
      var t := Step(s, RollOne(w));
      RecoverIsRolls(t, w, n - 1);
      assert Rolls(w, n)[1..] == Rolls(w, n - 1);
      RollNFirst(Get(s, w).curr, n - 1);
    }
  }

  /** An evolved root that was rolled further is not one that was rolled less. */
  lemma RolledFurther(x: Root, y: Root, m: nat, n: nat)
    requires y.Evolve? && n < m
    ensures RollN(x, m) != RollN(y, n)
  {
    RollNAdd(x, m - n, n);
    if RollN(x, m) == RollN(y, n) { RollNInjective(RollN(x, m - n), y, n); }
  }

  /** With something pending or under way, rolling takes Bob off Alice's line. */
  lemma OpenRoundIsLost(s: Sys, e: u32)
    requires Inv(s) && s.bob.epoch < e && e - s.bob.epoch <= RECOVERY_CAP
    requires s.bob.pend.Some? || Outstanding(s) != {}
    ensures !Together(Recovered(s, e)) && !Agree(Recovered(s, e))
  {
    var t := Recovered(s, e);
    assert Outstanding(t) == Outstanding(s);
    if e <= s.alice.epoch {
      var lead := s.alice.epoch - s.bob.epoch;
      if ct :| Early(s, ct) {
        var x, y := WouldPend(s, ct).value, WouldPend(t, ct).value;
        RolledFurther(s.bob.curr, x, lead, lead - 1);
        if e < s.alice.epoch { RolledFurther(x, y, lead - 1, s.alice.epoch - e - 1); }
      } else {
        assert Ahead(s, Alice);
        var x := s.bob.pend.value;
        RolledFurther(s.bob.curr, x, lead, lead - 1);
        if e < s.alice.epoch { RolledFurther(x, x, lead - 1, s.alice.epoch - e - 1); }
      }
    }
  }

  /** With no round open, rolling leaves the peers on one line whichever of them then leads. */
  lemma RestingRecovers(s: Sys, e: u32)
    requires Resting(s) && s.bob.epoch < e && e - s.bob.epoch <= RECOVERY_CAP
    ensures Resting(Recovered(s, e)) && (Agree(Recovered(s, e)) <==> e == s.alice.epoch)
  {
    var t, k := Recovered(s, e), e - s.bob.epoch;
    assert Outstanding(t) == Outstanding(s);
    if s.alice.epoch <= s.bob.epoch {
      RollNAdd(s.alice.curr, s.bob.epoch - s.alice.epoch, k);
      assert RolledFrom(t.bob, t.alice);
    } else if s.alice.epoch < e {
      RollNAdd(s.bob.curr, s.alice.epoch - s.bob.epoch, e - s.alice.epoch);
      assert RolledFrom(t.bob, t.alice);
    } else {
      RollNAdd(s.bob.curr, k, s.alice.epoch - e);
      assert RolledFrom(t.alice, t.bob);
    }
  }

  /**
   Recovering to any later epoch within the cap, also one past Alice's, keeps the peers together
   exactly when Bob has nothing pending and nothing is under way; it makes them agree exactly when no
   round is open and the epoch is hers.
   */
  lemma RecoverIff(s: Sys, e: u32)
    requires Inv(s) && s.bob.epoch < e && e - s.bob.epoch <= RECOVERY_CAP
    ensures Together(Recovered(s, e)) <==> s.bob.pend == None && Outstanding(s) == {}
    ensures Agree(Recovered(s, e)) <==> Resting(s) && e == s.alice.epoch
  {
    if s.bob.pend.Some? || Outstanding(s) != {} {
      OpenRoundIsLost(s, e);
    } else if Resting(s) {
      RestingRecovers(s, e);
    } else {
      assert Ahead(s, Bob);
      var t := Recovered(s, e);
      assert Outstanding(t) == Outstanding(s);
      RollNAdd(s.alice.pend.value, s.bob.epoch - s.alice.epoch - 1, e - s.bob.epoch);
      assert Ahead(t, Bob);
    }
  }

  /**
   Recovery after loss. In every state of a guarded run in which Alice is ahead by no more than the
   cap, Bob reads her epoch off a message and recovers to it. He then agrees with her and opens that
   message exactly when no round is open.
   */
  lemma RecoveryAfterLoss(pk: seq<byte>, seed: seq<byte>, ls: seq<Label>, stamp: Stamp)
    requires Guarded(Initial(pk, seed), ls)
    requires var s := Run(Initial(pk, seed), ls); s.bob.epoch < s.alice.epoch <= s.bob.epoch + RECOVERY_CAP
    ensures var s := Run(Initial(pk, seed), ls);
            var t := Recovered(s, s.alice.epoch);
            var m := HelloOf(s, Alice, stamp);
            && t.bob.epoch == m.header.epoch == s.alice.epoch
            && (Agree(t) <==> Resting(s))
            && TryDecrypt(t.bob, WireOf(m), m.header).1 == if Resting(s) then Some(Received([], false)) else None
  {
    var s := Run(Initial(pk, seed), ls);
    InvReached(pk, seed, ls);
    RecoverIff(s, s.alice.epoch);
    var t, m := Recovered(s, s.alice.epoch), HelloOf(s, Alice, stamp);
    KeysIffAgree(m.root, m.header.epoch, m.header.msgSeq, t.bob.curr, m.header.epoch, m.header.msgSeq);
    DecryptIffAgree([], DeriveMessageKey(m.root, m.header.epoch, m.header.msgSeq), m.header,
                    DeriveMessageKey(t.bob.curr, m.header.epoch, m.header.msgSeq), m.header);
  }

  /**
   There are such runs with a round open: Alice starts and commits before Bob has her ciphertext. Bob
   recovers to her epoch, and ends on another root.
   */
  lemma RecoveryMisses(pk: seq<byte>, seed: seq<byte>, coin: nat)
    requires |pk| == ML_KEM_PK_LEN
    ensures var ls := [Start(coin)] + [CommitBy(Alice)];
            var s := Run(Initial(pk, seed), ls);
            && Guarded(Initial(pk, seed), ls) && s.alice.epoch == s.bob.epoch + 1 && !Resting(s)
            && Recovered(s, s.alice.epoch).bob.epoch == s.alice.epoch && !Agree(Recovered(s, s.alice.epoch))
  {
    var i := Initial(pk, seed);
    var t := Step(i, Start(coin));
    var ls := [Start(coin)] + [CommitBy(Alice)];
    assert Outstanding(i) == {};
    Single(t, CommitBy(Alice), Disciplined);
    Cons(i, Start(coin), [CommitBy(Alice)], Disciplined);
    DisciplinedRun(pk, seed, ls);
    InvReached(pk, seed, ls);
    var s := Run(i, ls);
    assert KemCt(pk, coin) in Outstanding(s);
    RecoverIff(s, s.alice.epoch);
  }
}
