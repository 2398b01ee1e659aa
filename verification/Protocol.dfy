/**
 Two peers and a network as a labelled transition system over the operations of `RootState`.

 Ordinary messages may be dropped, duplicated, reordered and presented under any header.
 Bytes that nobody sealed may arrive at any time. Each public call is one step.
 */
module Protocol {
  import opened Bytes
  import opened Crypto
  import opened MessageCipher
  import opened RootState

  datatype Who = Alice | Bob

  function Other(w: Who): Who {
    if w == Alice then Bob else Alice
  }

  /** A message as its sender made it: the root and header it was sealed under. */
  datatype Sent = Sent(from: Who, root: Root, header: Header, text: seq<byte>)

  function WireOf(m: Sent): Wire {
    Encrypt(m.text, DeriveMessageKey(m.root, m.header.epoch, m.header.msgSeq), m.header)
  }

  /** A peer had `root` as its current root while its epoch was `epoch`. */
  datatype Holding = Holding(who: Who, root: Root, epoch: nat)

  /**
   `pk` is Bob's public key, known to both. `log` is every message ever sent, in order; `cts` every
   ciphertext Alice made and `applied` those given to Bob. `heard` says that Alice has opened a
   message of Bob's at the epoch she is in. `held` is the history of current roots.
   */
  datatype Sys = Sys(
    pk: seq<byte>, alice: Peer, bob: Peer, log: seq<Sent>,
    cts: set<KemCt>, applied: set<KemCt>, heard: bool, held: set<Holding>)

  datatype Label =
    | Start(coin: nat)
    | Apply(ct: KemCt)
    | CommitBy(who: Who)
    | RollOne(who: Who)
    | Send(who: Who, stamp: Stamp, outgoing: bool, timestamp: u64, text: seq<byte>)
    | Receive(who: Who, wire: Wire, header: Header)

  function Get(s: Sys, w: Who): Peer {
    if w == Alice then s.alice else s.bob
  }

  function Put(s: Sys, w: Who, p: Peer): Sys {
    if w == Alice then s.(alice := p) else s.(bob := p)
  }

  /** Both peers come out of initialisation with one root at epoch 0. */
  function Initial(pk: seq<byte>, seed: seq<byte>): Sys {
    var p := Peer(Init(seed), None, 0, 1);
    Sys(pk, p, p, [], {}, {}, true, {Holding(Alice, p.curr, 0), Holding(Bob, p.curr, 0)})
  }

  /** Message i of the log is what this wire carries. */
  predicate Carries(log: seq<Sent>, wire: Wire, i: nat) {
    i < |log| && wire.Packet? && wire.body == WireOf(log[i]).body
  }

  /** A sealed body exists only because somebody sent it. */
  ghost predicate Authentic(log: seq<Sent>, wire: Wire) {
    wire.Packet? && wire.body.Sealed? ==> exists i: nat :: Carries(log, wire, i)
  }

  ghost predicate HearsBob(log: seq<Sent>, wire: Wire, epoch: nat) {
    exists i: nat :: Carries(log, wire, i) && log[i].from == Bob && log[i].header.epoch == epoch
  }

  /** The peer-local effect of a step. */
  ghost function Local(s: Sys, l: Label): Sys {
    match l
    case Start(coin) =>
      (match Encapsulate(s.pk, coin)
       case None => s
       case Some((ct, secret)) => s.(alice := Pending(s.alice, secret), cts := s.cts + {ct}))
    case Apply(ct) =>
      (match Decapsulate(ct, s.pk)
       case None => s
       case Some(secret) => s.(bob := Pending(s.bob, secret), applied := s.applied + {ct}))
    case CommitBy(w) => Put(s, w, Commit(Get(s, w)).0)
    case RollOne(w) => Put(s, w, RollForward(Get(s, w)))
    case Send(w, stamp, outgoing, timestamp, text) =>
      var p := Get(s, w);
      var (p', msgSeq) := NextMsgSeq(p);
      var m := Sent(w, p.curr, Header(stamp, outgoing, p.epoch, msgSeq, timestamp), text);
      Put(s, w, p').(log := s.log + [m])
    case Receive(w, wire, h) =>
      Put(s, w, TryDecrypt(Get(s, w), wire, h).0)
  }

  /** With Bob's public key installed on both sides, start and apply are the kernel's own calls. */
  lemma LocalIsKernel(s: Sys, ka: Keys, kb: Keys, coin: nat, ct: KemCt, sha256: Hash)
    requires ka.peerPk == s.pk && ka.peerPkHash == sha256(s.pk) && kb.owned == Some(s.pk)
    ensures var (p, k, code) := StartEvolution(s.alice, ka, coin, sha256);
            var t := Local(s, Start(coin));
            && t.alice == p && t.bob == s.bob
            && t.cts == if code == 0 then s.cts + {k.kemCipher.value} else s.cts
    ensures var t := Local(s, Apply(ct)); t.bob == ApplyPeerKem(s.bob, kb, ct).0 && t.alice == s.alice
  {
  }

  /** A step, with the history brought up to date; what Alice heard lapses with her epoch. */
  ghost function Step(s: Sys, l: Label): Sys {
    var t := Local(s, l);
    var hears := l.Receive? && l.who == Alice && TryDecrypt(s.alice, l.wire, l.header).1.Some?
                 && HearsBob(s.log, l.wire, t.alice.epoch);
    t.(heard := hears || (s.heard && t.alice.epoch == s.alice.epoch),
       held := s.held + {Holding(Alice, t.alice.curr, t.alice.epoch), Holding(Bob, t.bob.curr, t.bob.epoch)})
  }

  /** The ciphertexts Alice made that Bob has not been given. */
  function Outstanding(s: Sys): set<KemCt> {
    s.cts - s.applied
  }

  /** What Bob would pend from this ciphertext in his present state. */
  function WouldPend(s: Sys, ct: KemCt): Option<Root> {
    match Decapsulate(ct, s.pk)
    case None => None
    case Some(secret) => Pending(s.bob, secret).pend
  }

  /**
   What a schedule may do. `Any` only rules out wrap-around and forgery. `NoRollPending` also
   keeps a peer from rolling over its own pending root. `Disciplined` is what the kernel expects
   of its callers for the peers to stay together:
   - Alice starts with no pending root, a fresh ciphertext, and after hearing from Bob at her epoch;
   - what Bob is given is one of Alice's ciphertexts, for the first time, or again while the root it
     yields is pending;
   - nobody rolls over their own pending root; Bob rolls only to catch up, with nothing under way.
   */
  datatype Regime = Any | NoRollPending | Disciplined

  ghost predicate Allowed(s: Sys, l: Label, g: Regime) {
    match l
    case Start(coin) =>
      g == Disciplined ==> s.alice.pend == None && s.heard && KemCt(s.pk, coin) !in s.cts
    case Apply(ct) =>
      g == Disciplined ==>
        ct.BadLength? || ct in Outstanding(s) || (s.bob.pend.Some? && WouldPend(s, ct) == s.bob.pend)
    case CommitBy(w) => Get(s, w).epoch < U32_MAX
    case RollOne(w) =>
      && Get(s, w).epoch < U32_MAX
      && (g != Any ==> Get(s, w).pend == None)
      && (g == Disciplined && w == Bob ==> Outstanding(s) == {} && s.bob.epoch < s.alice.epoch)
    case Send(w, _, _, _, _) => Get(s, w).counter + 1 < U64_LIMIT
    case Receive(w, wire, _) => Get(s, w).epoch < U32_MAX && Authentic(s.log, wire)
  }

  ghost function Run(s: Sys, ls: seq<Label>): Sys
    decreases |ls|
  {
    if ls == [] then s else Run(Step(s, ls[0]), ls[1..])
  }

  ghost predicate Legal(s: Sys, ls: seq<Label>, g: Regime)
    decreases |ls|
  {
    ls == [] || (Allowed(s, ls[0], g) && Legal(Step(s, ls[0]), ls[1..], g))
  }

  // ---- what every schedule keeps -------------------------------------------------------

  /** Lexicographic order on (epoch, sequence number). */
  predicate Before(e: nat, q: nat, e': nat, q': nat) {
    e < e' || (e == e' && q < q')
  }

  ghost predicate HistoryOk(s: Sys) {
    && Holding(Alice, s.alice.curr, s.alice.epoch) in s.held
    && Holding(Bob, s.bob.curr, s.bob.epoch) in s.held
    && forall x :: x in s.held ==> x.epoch <= Get(s, x.who).epoch
  }

  ghost predicate LogOk(s: Sys) {
    && (forall i :: 0 <= i < |s.log| ==>
          && Holding(s.log[i].from, s.log[i].root, s.log[i].header.epoch) in s.held
          && Before(s.log[i].header.epoch, s.log[i].header.msgSeq,
                    Get(s, s.log[i].from).epoch, Get(s, s.log[i].from).counter))
    && (forall i, j :: 0 <= i < j < |s.log| && s.log[i].from == s.log[j].from ==>
          Before(s.log[i].header.epoch, s.log[i].header.msgSeq, s.log[j].header.epoch, s.log[j].header.msgSeq))
  }

  ghost predicate Base(s: Sys) {
    HistoryOk(s) && LogOk(s)
  }

  /** A peer's epoch and counter only move forward in lexicographic order. */
  lemma Forward(s: Sys, l: Label, w: Who)
    requires Allowed(s, l, Any)
    ensures var (p, q) := (Get(s, w), Get(Step(s, l), w));
            && p.epoch <= q.epoch
            && (p.epoch == q.epoch ==> p.counter <= q.counter && p.curr == q.curr)
            && (l.Send? && l.who == w ==> q.counter == p.counter + 1)
  {
  }

  lemma HistoryStep(s: Sys, l: Label)
    requires HistoryOk(s) && Allowed(s, l, Any)
    ensures HistoryOk(Step(s, l))
  {
    Forward(s, l, Alice);
    Forward(s, l, Bob);
  }

  /** Only a send touches the log, and it appends one entry at the sender's position. */
  lemma LogGrowth(s: Sys, l: Label)
    requires HistoryOk(s)
    ensures s.held <= Step(s, l).held
    ensures !l.Send? ==> Step(s, l).log == s.log
    ensures l.Send? ==>
              var p := Get(s, l.who);
              && |Step(s, l).log| == |s.log| + 1 && Step(s, l).log[..|s.log|] == s.log
              && var m := Step(s, l).log[|s.log|];
              && m.from == l.who && m.root == p.curr && m.header.epoch == p.epoch && m.header.msgSeq == p.counter
  {
  }

  lemma LogStep(s: Sys, l: Label)
    requires Base(s) && Allowed(s, l, Any)
    ensures LogOk(Step(s, l))
  {
    hide Local, TryDecrypt, Authentic;
    var t := Step(s, l);
    Forward(s, l, Alice);
    Forward(s, l, Bob);
    LogGrowth(s, l);
    assert forall i :: 0 <= i < |s.log| ==> t.log[i] == s.log[i];
  }

  lemma BaseStep(s: Sys, l: Label)
    requires Base(s) && Allowed(s, l, Any)
    ensures Base(Step(s, l))
  {
    HistoryStep(s, l);
    LogStep(s, l);
  }

  lemma {:induction false} BaseRun(s: Sys, ls: seq<Label>)
    requires Base(s) && Legal(s, ls, Any)
    ensures Base(Run(s, ls))
    decreases |ls|
  {
    if ls != [] {
      BaseStep(s, ls[0]);
      BaseRun(Step(s, ls[0]), ls[1..]);
    }
  }

  /** Tighter regimes only remove schedules. */
  lemma {:induction false} Relax(s: Sys, ls: seq<Label>, g: Regime, g': Regime)
    requires Legal(s, ls, g)
    requires g' == Any || g' == g || (g == Disciplined && g' == NoRollPending)
    ensures Legal(s, ls, g')
    decreases |ls|
  {
    if ls != [] {
      Relax(Step(s, ls[0]), ls[1..], g, g');
    }
  }

  /** Whatever opens under a root was sealed under that root and carries that header. */
  lemma OpensOnlyGenuine(log: seq<Sent>, wire: Wire, h: Header, root: Root) returns (i: nat)
    requires Authentic(log, wire)
    requires Decrypt(wire, DeriveMessageKey(root, h.epoch, h.msgSeq), h).Some?
    ensures Carries(log, wire, i) && log[i].root == root && log[i].header == h
    ensures Decrypt(wire, DeriveMessageKey(root, h.epoch, h.msgSeq), h) == Some(log[i].text)
  {
    i :| Carries(log, wire, i);
    AadInjective(h, log[i].header);
  }

  /**
   Auto-commit agreement. Under any schedule, a peer that commits on receipt moves to a root and
   epoch that the other peer already held as its own; a receipt that opens nothing changes nothing.
   */
  lemma AutoCommitAgreement(pk: seq<byte>, seed: seq<byte>, ls: seq<Label>, w: Who, wire: Wire, h: Header)
    requires Legal(Initial(pk, seed), ls, Any)
    requires Allowed(Run(Initial(pk, seed), ls), Receive(w, wire, h), Any)
    ensures var s := Run(Initial(pk, seed), ls);
            var p := Get(s, w);
            var (p', r) := TryDecrypt(p, wire, h);
            && (r == None ==> p' == p)
            && (r.Some? && !r.value.committed ==> p' == p)
            && (r.Some? && r.value.committed ==>
                  && p'.epoch == p.epoch + 1 && p.pend == Some(p'.curr) && p'.pend == None
                  && Holding(Other(w), p'.curr, p'.epoch) in s.held)
  {
    var s := Run(Initial(pk, seed), ls);
    BaseRun(Initial(pk, seed), ls);
    var p := Get(s, w);
    var (p', r) := TryDecrypt(p, wire, h);
    if r.Some? && r.value.committed {
      var i := OpensOnlyGenuine(s.log, wire, h, p.pend.value);
    }
  }

  /**
   Sequence uniqueness. Under any schedule the (epoch, sequence) pairs of one peer's messages
   strictly increase, so no two of its messages share a key.
   */
  lemma SequenceUniqueness(pk: seq<byte>, seed: seq<byte>, ls: seq<Label>, i: nat, j: nat)
    requires Legal(Initial(pk, seed), ls, Any)
    requires i < j < |Run(Initial(pk, seed), ls).log|
    requires Run(Initial(pk, seed), ls).log[i].from == Run(Initial(pk, seed), ls).log[j].from
    ensures var (m, n) := (Run(Initial(pk, seed), ls).log[i], Run(Initial(pk, seed), ls).log[j]);
            && Before(m.header.epoch, m.header.msgSeq, n.header.epoch, n.header.msgSeq)
            && KeyInfo(m.header.epoch, m.header.msgSeq) != KeyInfo(n.header.epoch, n.header.msgSeq)
            && WireOf(m) != WireOf(n)
  {
    BaseRun(Initial(pk, seed), ls);
    var (m, n) := (Run(Initial(pk, seed), ls).log[i], Run(Initial(pk, seed), ls).log[j]);
    if KeyInfo(m.header.epoch, m.header.msgSeq) == KeyInfo(n.header.epoch, n.header.msgSeq) {
      KeyInfoInjective(m.header.epoch, m.header.msgSeq, n.header.epoch, n.header.msgSeq);
    }
  }

  /** Two messages were sealed under one key with one nonce. */
  predicate ShareKeyAndNonce(m: Sent, n: Sent) {
    WireOf(m).body.key == WireOf(n).body.key && WireOf(m).nonce == WireOf(n).nonce
  }

  lemma ShareIff(m: Sent, n: Sent)
    ensures ShareKeyAndNonce(m, n) <==>
            && m.root == n.root && m.header.epoch == n.header.epoch
            && m.header.msgSeq == n.header.msgSeq && m.header.timestamp == n.header.timestamp
  {
    KeysIffAgree(m.root, m.header.epoch, m.header.msgSeq, n.root, n.header.epoch, n.header.msgSeq);
    if ShareKeyAndNonce(m, n) {
      NonceAndInfoInjective(m.header.epoch, m.header.msgSeq, m.header.timestamp,
                            n.header.epoch, n.header.msgSeq, n.header.timestamp);
    }
  }

  /**
   Across both peers. Under any schedule two messages share key and nonce exactly when root, epoch,
   number and timestamp agree, and then the two peers sent one each.
   */
  lemma SharedExactly(pk: seq<byte>, seed: seq<byte>, ls: seq<Label>, i: nat, j: nat)
    requires Legal(Initial(pk, seed), ls, Any)
    requires i < j < |Run(Initial(pk, seed), ls).log|
    ensures var (m, n) := (Run(Initial(pk, seed), ls).log[i], Run(Initial(pk, seed), ls).log[j]);
            && (ShareKeyAndNonce(m, n) <==>
                  && m.root == n.root && m.header.epoch == n.header.epoch
                  && m.header.msgSeq == n.header.msgSeq && m.header.timestamp == n.header.timestamp)
            && (ShareKeyAndNonce(m, n) ==> m.from != n.from)
  {
    var (m, n) := (Run(Initial(pk, seed), ls).log[i], Run(Initial(pk, seed), ls).log[j]);
    ShareIff(m, n);
    if m.from == n.from { SequenceUniqueness(pk, seed, ls, i, j); }
  }

  /** The message a send appends. */
  function MessageOf(s: Sys, l: Label): Sent
    requires l.Send?
  {
    var p := Get(s, l.who);
    Sent(l.who, p.curr, Header(l.stamp, l.outgoing, p.epoch, p.counter, l.timestamp), l.text)
  }

  lemma SendStep(s: Sys, l: Label)
    requires l.Send?
    ensures Step(s, l).log == s.log + [MessageOf(s, l)] && Get(Step(s, l), Other(l.who)) == Get(s, Other(l.who))
  {
  }

  lemma BothSend(s: Sys, a: Label, b: Label)
    requires a.Send? && b.Send? && a.who != b.who
    ensures Run(s, [a, b]).log == s.log + [MessageOf(s, a)] + [MessageOf(s, b)]
  {
    hide Step;
    assert [a, b][1..] == [b] && [b][1..] == [];
    assert Run(s, [a, b]) == Run(Step(s, a), [b]) == Step(Step(s, a), b);
    SendStep(s, a);
    SendStep(Step(s, a), b);
    assert Other(a.who) == b.who;
    assert MessageOf(Step(s, a), b) == MessageOf(s, b);
  }

  /**
   The two peers count separately under one root: from any state, what each sends next shares key and
   nonce exactly when they agree, have sent equally many messages and use equal timestamps.
   */
  lemma CrossingSends(s: Sys, a: Label, b: Label)
    requires a.Send? && a.who == Alice && b.Send? && b.who == Bob
    ensures Run(s, [a, b]).log == s.log + [MessageOf(s, a)] + [MessageOf(s, b)]
    ensures ShareKeyAndNonce(MessageOf(s, a), MessageOf(s, b)) <==>
            && s.alice.curr == s.bob.curr && s.alice.epoch == s.bob.epoch
            && s.alice.counter == s.bob.counter && a.timestamp == b.timestamp
  {
    hide Run;
    BothSend(s, a, b);
    ShareIff(MessageOf(s, a), MessageOf(s, b));
  }

  /** So the very first messages of the two peers do, if they carry one timestamp. */
  lemma FirstSendsShare(pk: seq<byte>, seed: seq<byte>, a: Label, b: Label)
    requires a.Send? && a.who == Alice && b.Send? && b.who == Bob && a.timestamp == b.timestamp
    ensures Legal(Initial(pk, seed), [a, b], Any)
    ensures var log := Run(Initial(pk, seed), [a, b]).log; |log| == 2 && ShareKeyAndNonce(log[0], log[1])
  {
    var s := Initial(pk, seed);
    CrossingSends(s, a, b);
    SendStep(s, a);
    assert [a, b][1..] == [b] && [b][1..] == [];
    assert Get(Step(s, a), Bob) == s.bob;
    assert Allowed(s, a, Any) && Allowed(Step(s, a), b, Any);
    assert Legal(Step(s, a), [b], Any);
    var log := Run(s, [a, b]).log;
    assert log == [MessageOf(s, a), MessageOf(s, b)];
  }

  /** How many messages of this log peer w sent at epoch e. */
  function SentAt(log: seq<Sent>, w: Who, e: nat): nat {
    if log == [] then 0
    else
      var m := log[|log| - 1];
      SentAt(log[..|log| - 1], w, e) + if m.from == w && m.header.epoch == e then 1 else 0
  }

  /** Every message is numbered by its place among its sender's messages of that epoch. */
  ghost predicate Numbered(log: seq<Sent>) {
    forall i :: 0 <= i < |log| ==> NumberedAt(log, i)
  }

  predicate NumberedAt(log: seq<Sent>, i: nat)
    requires i < |log|
  {
    log[i].header.msgSeq == SentAt(log[..i], log[i].from, log[i].header.epoch) + 1
  }

  ghost predicate CounterOk(s: Sys, w: Who) {
    Get(s, w).counter == SentAt(s.log, w, Get(s, w).epoch) + 1
  }

  /** Nothing has been sent at an epoch not yet reached. */
  lemma {:induction false} NothingAhead(log: seq<Sent>, w: Who, e: nat)
    requires forall i :: 0 <= i < |log| && log[i].from == w ==> log[i].header.epoch < e
    ensures SentAt(log, w, e) == 0
    decreases |log|
  {
    if log != [] { NothingAhead(log[..|log| - 1], w, e); }
  }

  /** A new epoch starts numbering at one. */
  lemma CounterResets(s: Sys, l: Label, w: Who)
    requires Allowed(s, l, Any)
    ensures var (p, q) := (Get(s, w), Get(Step(s, l), w));
            if q.epoch == p.epoch then q.counter == p.counter + (if l.Send? && l.who == w then 1 else 0)
            else q.counter == 1 && !l.Send?
  {
  }

  lemma CounterStep(s: Sys, l: Label, w: Who)
    requires Base(s) && Allowed(s, l, Any) && CounterOk(s, w)
    ensures CounterOk(Step(s, l), w)
  {
    hide Local, TryDecrypt, Authentic;
    var t := Step(s, l);
    CounterResets(s, l, w);
    Forward(s, l, w);
    LogGrowth(s, l);
    if Get(t, w).epoch != Get(s, w).epoch {
      NothingAhead(s.log, w, Get(t, w).epoch);
    }
  }

  lemma NumberedStep(s: Sys, l: Label)
    requires Base(s) && Numbered(s.log) && CounterOk(s, Alice) && CounterOk(s, Bob)
    ensures Numbered(Step(s, l).log)
  {
    hide Local, TryDecrypt, Authentic;
    var t := Step(s, l);
    LogGrowth(s, l);
    forall i | 0 <= i < |t.log| ensures NumberedAt(t.log, i) {
      assert t.log[..i] == s.log[..i];
      if i < |s.log| {
        assert NumberedAt(s.log, i);
      } else {
        assert s.log[..i] == s.log;
      }
    }
  }

  lemma {:induction false} NumberedRun(s: Sys, ls: seq<Label>)
    requires Base(s) && Legal(s, ls, Any)
    requires Numbered(s.log) && CounterOk(s, Alice) && CounterOk(s, Bob)
    ensures Numbered(Run(s, ls).log)
    decreases |ls|
  {
    hide Allowed, Step, Base, Numbered, CounterOk;
    if ls != [] {
      BaseStep(s, ls[0]);
      NumberedStep(s, ls[0]);
      CounterStep(s, ls[0], Alice);
      CounterStep(s, ls[0], Bob);
      NumberedRun(Step(s, ls[0]), ls[1..]);
    }
  }

  /**
   Sequence numbers are dense. Under any schedule the k-th message a peer sends at an epoch carries
   the number k; in particular none carries 0.
   */
  lemma SequenceDense(pk: seq<byte>, seed: seq<byte>, ls: seq<Label>)
    requires Legal(Initial(pk, seed), ls, Any)
    ensures Numbered(Run(Initial(pk, seed), ls).log)
  {
    NumberedRun(Initial(pk, seed), ls);
  }

  // ---- what holds when nobody rolls over a pending root --------------------------------

  /** A root's depth is the epoch it is held at, and a pending root is one deeper. */
  predicate PeerDepths(p: Peer) {
    Depth(p.curr) == p.epoch && (p.pend.Some? ==> Depth(p.pend.value) == p.epoch + 1)
  }

  ghost predicate Depths(s: Sys) {
    && (forall x :: x in s.held ==> Depth(x.root) == x.epoch)
    && PeerDepths(s.alice) && PeerDepths(s.bob)
  }

  lemma PeerDepthsStep(s: Sys, l: Label, w: Who)
    requires PeerDepths(Get(s, w)) && Allowed(s, l, NoRollPending)
    ensures PeerDepths(Get(Step(s, l), w))
  {
  }

  lemma DepthsStep(s: Sys, l: Label)
    requires Depths(s) && Allowed(s, l, NoRollPending)
    ensures Depths(Step(s, l))
  {
    PeerDepthsStep(s, l, Alice);
    PeerDepthsStep(s, l, Bob);
  }

  lemma {:induction false} DepthsRun(s: Sys, ls: seq<Label>)
    requires Depths(s) && Legal(s, ls, NoRollPending)
    ensures Depths(Run(s, ls))
    decreases |ls|
  {
    if ls != [] {
      DepthsStep(s, ls[0]);
      DepthsRun(Step(s, ls[0]), ls[1..]);
    }
  }

  /**
   Root determines epoch. As long as nobody rolls over a pending root, no root is ever held at two
   epochs, by either peer.
   */
  lemma RootDeterminesEpoch(pk: seq<byte>, seed: seq<byte>, ls: seq<Label>, x: Holding, y: Holding)
    requires Legal(Initial(pk, seed), ls, NoRollPending)
    requires x in Run(Initial(pk, seed), ls).held && y in Run(Initial(pk, seed), ls).held
    requires x.root == y.root
    ensures x.epoch == y.epoch
  {
    DepthsRun(Initial(pk, seed), ls);
  }

  /**
   The fast path never compares epochs, yet whatever opens under the current root carries the
   local epoch.
   */
  lemma FastPathEpoch(pk: seq<byte>, seed: seq<byte>, ls: seq<Label>, w: Who, wire: Wire, h: Header)
    requires Legal(Initial(pk, seed), ls, NoRollPending)
    requires Allowed(Run(Initial(pk, seed), ls), Receive(w, wire, h), NoRollPending)
    requires Decrypt(wire, DeriveMessageKey(Get(Run(Initial(pk, seed), ls), w).curr, h.epoch, h.msgSeq), h).Some?
    ensures h.epoch == Get(Run(Initial(pk, seed), ls), w).epoch
  {
    var s := Run(Initial(pk, seed), ls);
    Relax(Initial(pk, seed), ls, NoRollPending, Any);
    BaseRun(Initial(pk, seed), ls);
    DepthsRun(Initial(pk, seed), ls);
    var i := OpensOnlyGenuine(s.log, wire, h, Get(s, w).curr);
  }
}
