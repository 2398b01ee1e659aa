/**
 What goes wrong when a guard of `Convergence` is not met. Roots that were derived apart stay apart
 under every schedule, and a roll over a pending root lets one root be held at two epochs.
 */
module Schedules {
  import opened Bytes
  import opened Crypto
  import opened MessageCipher
  import opened RootState
  import opened Protocol
  import opened Convergence
  import opened Resync

  // ---- lines of descent ----------------------------------------------------------------

  /** q is r, or was derived from it. */
  predicate Descends(q: Root, r: Root) {
    q == r || (!q.Init? && Descends(q.prev, r))
  }

  predicate Kin(q: Root, r: Root) {
    Descends(q, r) || Descends(r, q)
  }

  lemma {:induction false} DescendsParent(q: Root, r: Root)
    requires !r.Init? && Descends(q, r)
    ensures Descends(q, r.prev)
  {
    if q != r { DescendsParent(q.prev, r); }
  }

  /** What is derived from one of two unrelated roots is unrelated to the other. */
  lemma ChildApart(c: Root, r: Root)
    requires !c.Init? && !Kin(c.prev, r)
    ensures !Kin(c, r)
  {
    if Descends(r, c) { DescendsParent(r, c); }
  }

  lemma {:induction false} DescendsDepth(q: Root, r: Root)
    requires Descends(q, r)
    ensures q == r || Depth(r) < Depth(q)
  {
    if q != r { DescendsDepth(q.prev, r); }
  }

  /** Two different roots derived from one are unrelated. */
  lemma SiblingsApart(x: Root, y: Root)
    requires !x.Init? && !y.Init? && x.prev == y.prev && x != y
    ensures !Kin(x, y)
  {
    if Descends(x, y) { DescendsDepth(x, y); }
    if Descends(y, x) { DescendsDepth(y, x); }
  }

  lemma {:induction false} RollsApart(x: Root, r: Root, n: nat)
    requires !Kin(x, r)
    ensures !Kin(RollN(x, n), r)
  {
    if n > 0 {
      RollsApart(x, r, n - 1);
      ChildApart(RollN(x, n), r);
    }
  }

  predicate Holds(p: Peer, r: Root) {
    r == p.curr || p.pend == Some(r)
  }

  /** No root of one peer, current or pending, is related to one of the other. */
  ghost predicate Forked(s: Sys) {
    forall a, b :: Holds(s.alice, a) && Holds(s.bob, b) ==> !Kin(a, b)
  }

  /** A call gives a peer nothing but what it had and what derives from its current root. */
  lemma NewRoots(s: Sys, l: Label, w: Who, r: Root)
    requires Holds(Get(Step(s, l), w), r)
    ensures Holds(Get(s, w), r) || (!r.Init? && r.prev == Get(s, w).curr)
  {
  }

  lemma ForkedStep(s: Sys, l: Label)
    requires Forked(s)
    ensures Forked(Step(s, l))
  {
    hide Step;
    var t := Step(s, l);
    forall a, b | Holds(t.alice, a) && Holds(t.bob, b) ensures !Kin(a, b) {
      NewRoots(s, l, Alice, a);
      NewRoots(s, l, Bob, b);
      assert Holds(s.alice, s.alice.curr) && Holds(s.bob, s.bob.curr);
      var a' := if Holds(s.alice, a) then a else a.prev;
      var b' := if Holds(s.bob, b) then b else b.prev;
      assert !Kin(a', b');
      if a' != a { ChildApart(a, b'); }
      assert !Kin(a, b');
      if b' != b { ChildApart(b, a); }
    }
  }

  lemma {:induction false} ForkedRun(s: Sys, ls: seq<Label>)
    requires Forked(s)
    ensures Forked(Run(s, ls))
    decreases |ls|
  {
    if ls != [] {
      ForkedStep(s, ls[0]);
      ForkedRun(Step(s, ls[0]), ls[1..]);
    }
  }

  /**
   A fork is for good. Whatever the peers do from a forked state on, disciplined or not, they never
   agree again, and neither ever opens what the other then sends.
   */
  lemma ForkedForever(s: Sys, ls: seq<Label>, w: Who, h: Header, text: seq<byte>, h': Header)
    requires Forked(s)
    ensures var t := Run(s, ls);
            && !Agree(t)
            && TryDecrypt(Get(t, Other(w)), WireOf(Sent(w, Get(t, w).curr, h, text)), h').1 == None
  {
    var t := Run(s, ls);
    ForkedRun(s, ls);
    assert Holds(t.alice, t.alice.curr) && Holds(t.bob, t.bob.curr);
    forall r | Holds(Get(t, Other(w)), r) ensures r != Get(t, w).curr {
      assert Holds(Get(t, w), Get(t, w).curr);
    }
    assert Holds(Get(t, Other(w)), Get(t, Other(w)).curr);
    if Get(t, Other(w)).pend.Some? { assert Holds(Get(t, Other(w)), Get(t, Other(w)).pend.value); }
  }

  // ---- how guards that are not met lead to a fork --------------------------------------

  /** Room for two more epochs below the 32-bit limit. */
  predicate Room(s: Sys) {
    s.alice.epoch + 2 < U32_MAX && s.bob.epoch + 2 < U32_MAX
  }

  lemma Unroll(s: Sys, l: Label, ls: seq<Label>)
    ensures Run(s, [l] + ls) == Run(Step(s, l), ls)
    ensures Legal(s, [l] + ls, Any) <==> Allowed(s, l, Any) && Legal(Step(s, l), ls, Any)
  {
    assert ([l] + ls)[1..] == ls;
  }

  lemma RunThree(s: Sys, a: Label, b: Label, c: Label)
    ensures Run(s, [a, b, c]) == Step(Step(Step(s, a), b), c)
    ensures Legal(s, [a, b, c], Any) <==>
            Allowed(s, a, Any) && Allowed(Step(s, a), b, Any) && Allowed(Step(Step(s, a), b), c, Any)
  {
    Unroll(s, a, [b] + ([c] + []));
    Unroll(Step(s, a), b, [c] + []);
    Unroll(Step(Step(s, a), b), c, []);
    assert [a, b, c] == [a] + ([b] + ([c] + []));
  }

  lemma RunFour(s: Sys, a: Label, b: Label, c: Label, d: Label)
    ensures Run(s, [a, b, c, d]) == Step(Step(Step(Step(s, a), b), c), d)
    ensures Legal(s, [a, b, c, d], Any) <==>
            && Allowed(s, a, Any) && Allowed(Step(s, a), b, Any) && Allowed(Step(Step(s, a), b), c, Any)
            && Allowed(Step(Step(Step(s, a), b), c), d, Any)
  {
    Unroll(s, a, [b, c, d]);
    RunThree(Step(s, a), b, c, d);
    assert [a, b, c, d] == [a] + [b, c, d];
  }

  /** The peers are forked once all the roots they hold are known to be unrelated. */
  lemma ForkedWhen(s: Sys)
    requires !Kin(s.alice.curr, s.bob.curr) && s.bob.pend == None
    requires s.alice.pend.Some? ==> !Kin(s.alice.pend.value, s.bob.curr)
    ensures Forked(s)
  {
  }

  /** Alice starts over a pending root, and the ciphertext she gave up is the one that arrives. */
  lemma OverwrittenStart(s: Sys, ct: KemCt, coin: nat)
    requires Inv(s) && Offered(s, ct) && |s.pk| == ML_KEM_PK_LEN && KemCt(s.pk, coin) !in s.cts
    ensures var ls := [Start(coin), Apply(ct), CommitBy(Alice), CommitBy(Bob)]; Forked(Run(s, ls)) && (Room(s) ==> Legal(s, ls, Any))
  {
    RunFour(s, Start(coin), Apply(ct), CommitBy(Alice), CommitBy(Bob));
    var t := Step(Step(s, Start(coin)), Apply(ct));
    assert ct in Outstanding(s);
    var x, y := t.alice.pend.value, t.bob.pend.value;
    assert x == Evolve(Shared(s.pk, coin), s.alice.curr) && Some(y) == WouldPend(s, ct) && s.alice.curr == s.bob.curr;
    SiblingsApart(x, y);
    ForkedWhen(Step(Step(t, CommitBy(Alice)), CommitBy(Bob)));
  }

  /** Alice starts a second round before Bob has the first, and he commits only the second. */
  lemma UnheardStart(s: Sys, ct: KemCt, coin: nat)
    requires Early(s, ct) && |s.pk| == ML_KEM_PK_LEN && KemCt(s.pk, coin) !in s.cts
    ensures var ls := [Start(coin), Apply(ct), Apply(KemCt(s.pk, coin)), CommitBy(Bob)]; Forked(Run(s, ls)) && (Room(s) ==> Legal(s, ls, Any))
  {
    var ct' := KemCt(s.pk, coin);
    RunFour(s, Start(coin), Apply(ct), Apply(ct'), CommitBy(Bob));
    var t := Step(Step(Step(s, Start(coin)), Apply(ct)), Apply(ct'));
    assert ct in Outstanding(s);
    var x, y := WouldPend(s, ct).value, t.bob.pend.value;
    assert y == Evolve(Shared(s.pk, coin), s.bob.curr) && t.alice.curr == s.alice.curr;
    SiblingsApart(x, y);
    RollsApart(x, y, s.alice.epoch - s.bob.epoch - 1);
    ChildApart(t.alice.pend.value, y);
    ForkedWhen(Step(t, CommitBy(Bob)));
  }

  /** Bob is given a ciphertext that is not under way, old or made by a stranger, and commits it. */
  lemma StrayCiphertext(s: Sys, ct: KemCt)
    requires Resting(s) && Agree(s) && ct.KemCt?
    ensures var ls := [Apply(ct), CommitBy(Bob), RollOne(Alice)]; Forked(Run(s, ls)) && (Room(s) ==> Legal(s, ls, Any))
  {
    RunThree(s, Apply(ct), CommitBy(Bob), RollOne(Alice));
    var t := Step(Step(Step(s, Apply(ct)), CommitBy(Bob)), RollOne(Alice));
    assert t.alice.curr == Roll(s.alice.curr) && Some(t.bob.curr) == WouldPend(s, ct);
    SiblingsApart(t.alice.curr, t.bob.curr);
    ForkedWhen(t);
  }

  /** Bob rolls ahead of Alice, and she commits a round of her own. */
  lemma BobRollsAhead(s: Sys, coin: nat)
    requires Resting(s) && Agree(s) && |s.pk| == ML_KEM_PK_LEN
    ensures var ls := [RollOne(Bob), Start(coin), CommitBy(Alice)]; Forked(Run(s, ls)) && (Room(s) ==> Legal(s, ls, Any))
  {
    RunThree(s, RollOne(Bob), Start(coin), CommitBy(Alice));
    var t := Step(Step(Step(s, RollOne(Bob)), Start(coin)), CommitBy(Alice));
    assert t.alice.curr == Evolve(Shared(s.pk, coin), s.alice.curr) && t.bob.curr == Roll(s.bob.curr);
    SiblingsApart(t.alice.curr, t.bob.curr);
    ForkedWhen(t);
  }

  // ---- rolling over a pending root -----------------------------------------------------

  /** No root has been held at two epochs. */
  ghost predicate OneEpochEach(s: Sys) {
    forall x, y :: x in s.held && y in s.held && x.root == y.root ==> x.epoch == y.epoch
  }

  /** Nor will it be, as long as nobody rolls over a pending root from here on. */
  ghost predicate OneEpochFromHere(s: Sys) {
    forall ls :: Legal(s, ls, NoRollPending) ==> OneEpochEach(Run(s, ls))
  }

  lemma TwoEpochs(s: Sys, x: Holding, y: Holding)
    requires x in s.held && y in s.held && x.root == y.root && x.epoch != y.epoch
    ensures !OneEpochEach(s)
  {
  }

  /** Bob holds x pending or is sent it, and commits it. */
  lemma BobReaches(s: Sys, x: Root) returns (ls: seq<Label>)
    requires s.bob.epoch < U32_MAX
    requires s.bob.pend == Some(x) || exists ct :: WouldPend(s, ct) == Some(x)
    ensures Legal(s, ls, NoRollPending)
    ensures s.held <= Run(s, ls).held && Holding(Bob, x, s.bob.epoch + 1) in Run(s, ls).held
  {
    Single(s, CommitBy(Bob), NoRollPending);
    ls := [CommitBy(Bob)];
    if s.bob.pend != Some(x) {
      var ct :| WouldPend(s, ct) == Some(x);
      var t := Step(s, Apply(ct));
      Single(t, CommitBy(Bob), NoRollPending);
      Cons(s, Apply(ct), [CommitBy(Bob)], NoRollPending);
      ls := [Apply(ct)] + [CommitBy(Bob)];
    }
  }

  lemma RollThenCommit(s: Sys, w: Who)
    requires Get(s, w).pend.Some? && Get(s, w).epoch + 2 <= U32_MAX
    ensures var t := Step(s, RollOne(w));
            var u := Step(t, CommitBy(w));
            && Allowed(t, CommitBy(w), NoRollPending)
            && Get(u, w).curr == Get(s, w).pend.value && Get(u, w).epoch == Get(s, w).epoch + 2 && Get(u, w).pend == None
            && Get(u, Other(w)) == Get(s, Other(w)) && u.pk == s.pk && s.held <= u.held && Holding(w, Get(u, w).curr, Get(u, w).epoch) in u.held
  {
  }

  /** Alice rolls over a pending root Bob has yet to commit; each comes to it at an epoch of their own. */
  lemma AliceRollsOver(s: Sys) returns (ls: seq<Label>)
    requires Inv(s) && s.alice.pend.Some? && s.alice.epoch == s.bob.epoch && s.alice.epoch + 2 < U32_MAX
    ensures var t := Step(s, RollOne(Alice)); Legal(t, ls, NoRollPending) && !OneEpochEach(Run(t, ls))
  {
    hide Step;
    var x, t := s.alice.pend.value, Step(s, RollOne(Alice));
    var u := Step(t, CommitBy(Alice));
    RollThenCommit(s, Alice);
    if ct :| Offered(s, ct) { assert WouldPend(u, ct) == Some(x); }
    var rest := BobReaches(u, x);
    Cons(t, CommitBy(Alice), rest, NoRollPending);
    ls := [CommitBy(Alice)] + rest;
    TwoEpochs(Run(u, rest), Holding(Alice, x, s.alice.epoch + 2), Holding(Bob, x, s.alice.epoch + 1));
  }

  /** Bob rolls over the root both hold pending; each commits it at an epoch of their own. */
  lemma BobRollsOver(s: Sys) returns (ls: seq<Label>)
    requires Inv(s) && Matched(s) && s.alice.epoch + 2 < U32_MAX
    ensures var t := Step(s, RollOne(Bob)); Legal(t, ls, NoRollPending) && !OneEpochEach(Run(t, ls))
  {
    var x, t := s.bob.pend.value, Step(s, RollOne(Bob));
    var u := Step(t, CommitBy(Bob));
    var v := Step(u, CommitBy(Alice));
    TwoEpochs(v, Holding(Bob, x, s.bob.epoch + 2), Holding(Alice, x, s.bob.epoch + 1));
    Single(u, CommitBy(Alice), NoRollPending);
    Cons(t, CommitBy(Bob), [CommitBy(Alice)], NoRollPending);
    ls := [CommitBy(Bob)] + [CommitBy(Alice)];
  }

  /** A peer rolls over the root the other committed, commits it and rolls up to the other's root, an epoch late. */
  lemma RollsOverBehind(s: Sys, w: Who) returns (ls: seq<Label>)
    requires Base(s) && Ahead(s, Other(w)) && Get(s, Other(w)).epoch + 2 < U32_MAX
    ensures var t := Step(s, RollOne(w)); Legal(t, ls, NoRollPending) && !OneEpochEach(Run(t, ls))
  {
    hide Step;
    var t := Step(s, RollOne(w));
    var u, q := Step(t, CommitBy(w)), Get(s, Other(w));
    var n := q.epoch - Get(s, w).epoch - 1;
    RollThenCommit(s, w);
    RecoverIsRolls(u, w, n);
    assert Holding(Other(w), q.curr, q.epoch) in s.held;
    TwoEpochs(Run(u, Rolls(w, n)), Holding(w, q.curr, q.epoch + 1), Holding(Other(w), q.curr, q.epoch));
    Cons(t, CommitBy(w), Rolls(w, n), NoRollPending);
    ls := [CommitBy(w)] + Rolls(w, n);
  }

  /**
   Exactly when a roll lets a root be held at two epochs. From every state the peers can be in, a
   roll is safe for every continuation in which nobody rolls over a pending root exactly when the
   peer that rolls has nothing pending.
   */
  lemma RollNeedsNoPending(s: Sys, w: Who)
    requires Inv(s) && Room(s)
    ensures OneEpochFromHere(Step(s, RollOne(w))) <==> Get(s, w).pend == None
  {
    var t := Step(s, RollOne(w));
    if Get(s, w).pend == None {
      DepthsStep(s, RollOne(w));
      forall ls | Legal(t, ls, NoRollPending) ensures OneEpochEach(Run(t, ls)) {
        DepthsRun(t, ls);
      }
    } else {
      var ls: seq<Label>;
      if Ahead(s, Other(w)) {
        ls := RollsOverBehind(s, w);
      } else if w == Alice {
        ls := AliceRollsOver(s);
      } else {
        ls := BobRollsOver(s);
      }
      assert Legal(t, ls, NoRollPending) && !OneEpochEach(Run(t, ls));
    }
  }

  /**
   When Alice rolls over a pending root both peers end on one root at two different epochs, and
   Bob opens on the fast path a message whose epoch is not his.
   */
  lemma RollOverPending(s: Sys, ct: KemCt, stamp: Stamp)
    requires Inv(s) && Offered(s, ct) && Room(s)
    ensures Legal(s, [RollOne(Alice), CommitBy(Alice), Apply(ct), CommitBy(Bob)], Any)
    ensures var t := Run(s, [RollOne(Alice), CommitBy(Alice), Apply(ct), CommitBy(Bob)]);
            && t.alice.curr == t.bob.curr && t.alice.epoch == t.bob.epoch + 1
            && var h := Header(stamp, true, t.alice.epoch, t.alice.counter, 0);
            && TryDecrypt(t.bob, WireOf(Sent(Alice, t.alice.curr, h, [])), h) == (t.bob, Some(Received([], false)))
  {
    RunFour(s, RollOne(Alice), CommitBy(Alice), Apply(ct), CommitBy(Bob));
    var u := Step(Step(s, RollOne(Alice)), CommitBy(Alice));
    assert u.alice.curr == s.alice.pend.value && u.alice.epoch == s.alice.epoch + 2 && u.bob == s.bob;
    assert ct in Outstanding(s);
    var t := Step(Step(u, Apply(ct)), CommitBy(Bob));
    assert t.bob.curr == u.alice.curr && t.alice == u.alice;
  }
}
