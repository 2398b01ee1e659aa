/**
 What the phases of `Convergence` mean. A pair is in one of them exactly when closing the open round
 cannot go wrong: however the ciphertexts under way and the commits are ordered, once nothing is
 pending and nothing is under way the peers agree or one is ahead by rolls alone.
 */
module Closing {
  import opened Bytes
  import opened Crypto
  import opened RootState
  import opened Protocol
  import opened Convergence

  /** A commit, or the delivery of a ciphertext that is under way. */
  ghost predicate Closes(s: Sys, l: Label) {
    Allowed(s, l, Any) && (l.CommitBy? || (l.Apply? && l.ct in Outstanding(s)))
  }

  ghost predicate Closure(s: Sys, ls: seq<Label>)
    decreases |ls|
  {
    ls == [] || (Closes(s, ls[0]) && Closure(Step(s, ls[0]), ls[1..]))
  }

  ghost predicate Quiet(s: Sys) {
    s.alice.pend == s.bob.pend == None && Outstanding(s) == {}
  }

  /** Every way of closing what is open ends well. */
  ghost predicate ClosesWell(s: Sys) {
    forall ls :: Closure(s, ls) && Quiet(Run(s, ls)) ==> Resting(Run(s, ls))
  }

  lemma {:induction false} ClosureTogether(s: Sys, ls: seq<Label>)
    requires Together(s) && Closure(s, ls)
    ensures Together(Run(s, ls))
    decreases |ls|
  {
    if ls != [] {
      match ls[0] {
        case CommitBy(w) => CommitTogether(s, w, Step(s, ls[0]));
        case Apply(ct) => DeliverTogether(s, ct);
      }
      ClosureTogether(Step(s, ls[0]), ls[1..]);
    }
  }

  // ---- a pair in no phase can be closed badly ------------------------------------------

  /** Pending roots are evolved ones, ciphertexts parse, and a few epochs are left. */
  predicate Plain(s: Sys) {
    && (s.alice.pend.Some? ==> s.alice.pend.value.Evolve?) && (s.bob.pend.Some? ==> s.bob.pend.value.Evolve?)
    && BadLength !in s.cts && s.alice.epoch < U32_MAX && s.bob.epoch + 1 < U32_MAX
  }

  ghost predicate ClosesBadly(s: Sys, ls: seq<Label>) {
    Closure(s, ls) && Quiet(Run(s, ls)) && !Resting(Run(s, ls))
  }

  lemma Prepend(s: Sys, l: Label, ls: seq<Label>)
    requires Closes(s, l) && Closure(Step(s, l), ls)
    ensures Closure(s, [l] + ls) && Run(s, [l] + ls) == Run(Step(s, l), ls)
  {
    assert ([l] + ls)[1..] == ls;
  }

  const BOTH: seq<Label> := [CommitBy(Alice)] + [CommitBy(Bob)]

  lemma CommitBoth(s: Sys)
    requires s.alice.epoch < U32_MAX && s.bob.epoch < U32_MAX
    ensures Closure(s, BOTH)
    ensures var t := Run(s, BOTH);
            t.alice == Commit(s.alice).0 && t.bob == Commit(s.bob).0 && Outstanding(t) == Outstanding(s)
  {
    var t := Step(s, CommitBy(Alice));
    Prepend(t, CommitBy(Bob), []);
    assert [CommitBy(Bob)] + [] == [CommitBy(Bob)];
    Prepend(s, CommitBy(Alice), [CommitBy(Bob)]);
  }

  lemma DeliverThenCommit(s: Sys, ct: KemCt)
    requires Plain(s) && Outstanding(s) == {ct}
    ensures Closure(s, [Apply(ct)] + BOTH)
    ensures var t := Run(s, [Apply(ct)] + BOTH);
            && Quiet(t) && t.alice == Commit(s.alice).0
            && ct.KemCt? && t.bob.curr == Evolve(Decapsulate(ct, s.pk).value, s.bob.curr) && t.bob.epoch == s.bob.epoch + 1
  {
    assert ct in s.cts;
    var u := Step(s, Apply(ct));
    CommitBoth(u);
    Prepend(s, Apply(ct), BOTH);
    assert Outstanding(u) == {};
  }

  lemma CommitFirst(s: Sys, ct: KemCt)
    requires Plain(s) && Outstanding(s) == {ct} && s.bob.pend.Some?
    ensures Closure(s, [CommitBy(Bob), Apply(ct)] + BOTH)
    ensures var t := Run(s, [CommitBy(Bob), Apply(ct)] + BOTH);
            Quiet(t) && t.alice == Commit(s.alice).0 && t.bob.curr.Evolve? && t.bob.epoch == s.bob.epoch + 2
  {
    assert ct in s.cts;
    var v := Step(s, CommitBy(Bob));
    var u := Step(v, Apply(ct));
    CommitBoth(u);
    Prepend(v, Apply(ct), BOTH);
    Prepend(s, CommitBy(Bob), [Apply(ct)] + BOTH);
    assert [CommitBy(Bob), Apply(ct)] + BOTH == [CommitBy(Bob)] + ([Apply(ct)] + BOTH);
    assert Outstanding(v) == {ct} && Outstanding(u) == {};
  }

  /** The last ciphertext finds Bob with a pending root: before or after his commit makes a difference. */
  lemma OneTangled(s: Sys, ct: KemCt) returns (ls: seq<Label>)
    requires Plain(s) && Outstanding(s) == {ct} && s.bob.pend.Some?
    ensures ClosesBadly(s, ls)
  {
    DeliverThenCommit(s, ct);
    CommitFirst(s, ct);
    var one, two := Run(s, [Apply(ct)] + BOTH), Run(s, [CommitBy(Bob), Apply(ct)] + BOTH);
    ls := if Resting(one) then [CommitBy(Bob), Apply(ct)] + BOTH else [Apply(ct)] + BOTH;
    if Resting(one) && Resting(two) {
      if two.bob.epoch <= two.alice.epoch {
        OffTheLine(two.bob.curr, one.bob.curr, two.alice.epoch - two.bob.epoch);
      }
      assert false;
    }
  }

  lemma {:induction false} Tangled(s: Sys) returns (ls: seq<Label>)
    requires Plain(s) && Outstanding(s) != {} && s.bob.pend.Some?
    ensures ClosesBadly(s, ls)
    decreases |Outstanding(s)|, 1
  {
    var ct :| ct in Outstanding(s);
    if Outstanding(s) == {ct} {
      ls := OneTangled(s, ct);
    } else {
      ls := Deliver(s, ct);
    }
  }

  /** With two ciphertexts under way, delivering one leaves Bob tangled. */
  lemma {:induction false} Deliver(s: Sys, ct: KemCt) returns (ls: seq<Label>)
    requires Plain(s) && ct in Outstanding(s) && Outstanding(s) != {ct}
    ensures ClosesBadly(s, ls)
    decreases |Outstanding(s)|, 0
  {
    var t := Step(s, Apply(ct));
    assert Outstanding(t) == Outstanding(s) - {ct};
    assert Outstanding(s) == Outstanding(t) + {ct};
    var rest := Tangled(t);
    Prepend(s, Apply(ct), rest);
    ls := [Apply(ct)] + rest;
  }

  /** With nothing under way there is one way to close, and it ends well only from a phase. */
  lemma NothingUnderWay(s: Sys)
    requires Plain(s) && Outstanding(s) == {}
    ensures Closure(s, BOTH) && Quiet(Run(s, BOTH))
    ensures Resting(Run(s, BOTH)) ==> Together(s)
  {
    CommitBoth(s);
    if Resting(Run(s, BOTH)) {
      if s.bob.pend.Some? && s.alice.pend == None {
        assert Ahead(s, Alice);
      } else if s.bob.pend == None && s.alice.pend.Some? {
        assert Ahead(s, Bob);
      }
    }
  }

  lemma OneUnderWay(s: Sys, ct: KemCt)
    requires Plain(s) && Outstanding(s) == {ct} && s.bob.pend == None
    ensures Closure(s, [Apply(ct)] + BOTH) && Quiet(Run(s, [Apply(ct)] + BOTH))
    ensures Resting(Run(s, [Apply(ct)] + BOTH)) ==> Together(s)
  {
    DeliverThenCommit(s, ct);
    if Resting(Run(s, [Apply(ct)] + BOTH)) {
      assert Offered(s, ct) || Early(s, ct);
    }
  }

  lemma Badly(s: Sys) returns (ls: seq<Label>)
    requires Plain(s) && !Together(s)
    ensures ClosesBadly(s, ls)
  {
    if Outstanding(s) == {} {
      NothingUnderWay(s);
      ls := BOTH;
    } else if s.bob.pend.Some? {
      ls := Tangled(s);
    } else {
      var ct :| ct in Outstanding(s);
      if Outstanding(s) == {ct} {
        OneUnderWay(s, ct);
        ls := [Apply(ct)] + BOTH;
      } else {
        ls := Deliver(s, ct);
      }
    }
  }

  /** Together means that every way of closing what is open ends well. */
  lemma TogetherIff(s: Sys)
    requires Plain(s)
    ensures Together(s) <==> ClosesWell(s)
  {
    if Together(s) {
      forall ls | Closure(s, ls) && Quiet(Run(s, ls)) ensures Resting(Run(s, ls)) {
        ClosureTogether(s, ls);
      }
    } else {
      var ls := Badly(s);
      assert ClosesBadly(s, ls);
    }
  }

  /** No call pends anything but an evolved root, or passes more than one epoch. */
  lemma PlainPeer(s: Sys, l: Label, w: Who)
    requires PendsOwn(Get(s, w))
    ensures var q := Get(Step(s, l), w);
            q.epoch <= Get(s, w).epoch + 1 && (q.pend.Some? ==> q.pend.value.Evolve?)
  {
  }

  lemma PlainCiphertexts(s: Sys, l: Label)
    requires BadLength !in s.cts
    ensures BadLength !in Step(s, l).cts
  {
  }

  /**
   The guards are exact for what they are meant to keep: after a call from any state the peers can
   be in, the open round closes well in every order exactly when the call met its guard.
   */
  lemma GuardMeans(s: Sys, l: Label)
    requires Inv(s) && Allowed(s, l, Any) && s.alice.epoch + 1 < U32_MAX && s.bob.epoch + 2 < U32_MAX
    ensures ClosesWell(Step(s, l)) <==> Keeps(s, l)
  {
    hide Step, Keeps, ClosesWell, Together;
    PlainPeer(s, l, Alice);
    PlainPeer(s, l, Bob);
    PlainCiphertexts(s, l);
    GuardIff(s, l);
    TogetherIff(Step(s, l));
  }
}
