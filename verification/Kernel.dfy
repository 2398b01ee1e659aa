/**
 One peer's kernel as its callers see it: every call with its return value, and what holds of any
 sequence of calls, failed ones included. A call that reports failure changes nothing, and each piece
 of state changes only through the calls that are meant to change it.
 */
module Kernel {
  import opened Bytes
  import opened Crypto
  import opened MessageCipher
  import opened RootState
  import opened InitModule

  /** The public calls on a session and its key store. */
  datatype Call =
    | Install(pk: seq<byte>)
    | Generate(pk: seq<byte>)
    | Initialising(alice: seq<byte>, bob: seq<byte>, pk: seq<byte>)
    | Start(coin: nat)
    | Apply(ct: KemCt)
    | Committing
    | Rolling
    | Recovering(target: u32)
    | Drawing
    | Receive(wire: Wire, h: Header)

  datatype Reply = Code(code: u32) | Number(q: u64) | Message(r: Option<Received>)

  datatype Node = Node(peer: Peer, keys: Keys)

  function Do(n: Node, c: Call, sha256: Hash): (Node, Reply) {
    match c
    case Install(pk) => (n.(keys := SetPeerPublicKey(n.keys, pk, sha256)), Code(0))
    case Generate(pk) => (n.(keys := GenerateKeypair(n.keys, pk)), Code(0))
    case Initialising(alice, bob, pk) =>
      var (p, code) := Initialise(n.peer, alice, bob, pk);
      (Node(p, if code == 0 then n.keys.(stampPk := pk) else n.keys), Code(code))
    case Start(coin) => var (p, k, code) := StartEvolution(n.peer, n.keys, coin, sha256); (Node(p, k), Code(code))
    case Apply(ct) => var (p, code) := ApplyPeerKem(n.peer, n.keys, ct); (n.(peer := p), Code(code))
    case Committing => var (p, code) := Commit(n.peer); (n.(peer := p), Code(code))
    case Rolling => var p := RollForward(n.peer); (n.(peer := p), Number(p.epoch))
    case Recovering(target) => var (p, r) := Recover(n.peer, target); (n.(peer := p), Number(r))
    case Drawing => var (p, q) := NextMsgSeq(n.peer); (n.(peer := p), Number(q))
    case Receive(wire, h) => var (p, r) := TryDecrypt(n.peer, wire, h); (n.(peer := p), Message(r))
  }

  function After(n: Node, calls: seq<Call>, sha256: Hash): Node
    decreases |calls|
  {
    if calls == [] then n
    else Do(After(n, calls[..|calls| - 1], sha256), calls[|calls| - 1], sha256).0
  }

  // ---- when each call fails, and that it then changes nothing --------------------------

  /** Long enough, and not one byte over and over. */
  ghost predicate Varied(data: seq<byte>) {
    |data| >= 64 && exists i, j :: 0 <= i < j < |data| && data[i] != data[j]
  }

  lemma VariedIff(data: seq<byte>)
    ensures Varied(data) <==> !EntropyReject(data)
  {
    if !EntropyReject(data) {
      var i :| 0 <= i < |data| && data[i] != data[0];
      assert data[0] != data[i];
    }
  }

  /** Initialisation: each return value, exactly when, and what it leaves. */
  lemma InitialiseExactly(p: Peer, alice: seq<byte>, bob: seq<byte>, pk: seq<byte>)
    ensures var (q, code) := Initialise(p, alice, bob, pk);
            && (code == 0 <==> Varied(alice) && Varied(bob) && pk != [])
            && (code == 3 <==> Varied(alice) && Varied(bob) && pk == [])
            && (code == 2 <==> !Varied(alice) || !Varied(bob))
            && (code != 0 ==> q == p)
            && (code == 0 ==> q.pend == p.pend && q.counter == p.counter && q.epoch == 0
                              && q.curr.Init? && IsInterleaving(q.curr.seed, alice, bob))
  {
    VariedIff(alice);
    VariedIff(bob);
  }

  /** A start: each return value, exactly when, and what it leaves. */
  lemma StartExactly(p: Peer, k: Keys, coin: nat, sha256: Hash)
    ensures var (q, l, code) := StartEvolution(p, k, coin, sha256);
            var swapped := k.peerPkHash != ZERO_HASH && k.peerPkHash != sha256(k.peerPk);
            && (code == 2 <==> k.peerPk == [])
            && (code == 5 <==> k.peerPk != [] && swapped)
            && (code == 1 <==> k.peerPk != [] && !swapped && |k.peerPk| != 1568)
            && (code == 0 <==> !swapped && |k.peerPk| == 1568)
            && (code != 0 ==> q == p && l == k)
            && (code == 0 ==>
                  && q.pend == Some(Evolve(Shared(k.peerPk, coin), p.curr)) && q.(pend := p.pend) == p
                  && l.kemCipher == Some(KemCt(k.peerPk, coin)) && l.(kemCipher := k.kemCipher) == k)
  {
  }

  /** The secret that comes out of a ciphertext: the one put in if it was made for this key. */
  function SecretOf(ct: KemCt, pk: seq<byte>): Secret
    requires ct.KemCt?
  {
    if ct.pk == pk then Shared(pk, ct.coin) else Rejected(pk, ct)
  }

  /** An apply: each return value, exactly when, and what it leaves. */
  lemma ApplyExactly(p: Peer, k: Keys, ct: KemCt)
    ensures var (q, code) := ApplyPeerKem(p, k, ct);
            && (code == 3 <==> k.owned == None)
            && (code == 2 <==> k.owned != None && ct == BadLength)
            && (code == 0 <==> k.owned != None && ct != BadLength)
            && (code != 0 ==> q == p)
            && (code == 0 ==>
                  q.pend == Some(Evolve(SecretOf(ct, k.owned.value), p.curr)) && q.(pend := p.pend) == p)
  {
  }

  /** A commit: each return value, exactly when, and what it leaves. */
  lemma CommitExactly(p: Peer)
    ensures var (q, code) := Commit(p);
            && (code == 0 <==> p.pend.Some?) && (code == 1 <==> p.pend == None)
            && (code != 0 ==> q == p)
            && (code == 0 ==> Some(q.curr) == p.pend && q.pend == None && q.counter == 1
                              && (q.epoch - p.epoch - 1) % U32_LIMIT == 0)
  {
  }

  /** The call reported that it failed. */
  predicate Failed(c: Call, n: Node, r: Reply) {
    match c
    case Recovering(target) => target > n.peer.epoch + RECOVERY_CAP
    case _ => (r.Code? && r.code != 0) || (r.Message? && r.r == None)
  }

  /** Whatever was called, a failed call leaves the session and the key store as they were. */
  lemma FailureChangesNothing(n: Node, c: Call, sha256: Hash)
    requires Failed(c, n, Do(n, c, sha256).1)
    ensures Do(n, c, sha256).0 == n
  {
    match c {
      case Start(coin) => StartExactly(n.peer, n.keys, coin, sha256);
      case Apply(ct) => ApplyExactly(n.peer, n.keys, ct);
      case Initialising(alice, bob, pk) => InitialiseExactly(n.peer, alice, bob, pk);
      case Committing => CommitExactly(n.peer);
      case _ =>
    }
  }

  // ---- what becomes of the pending root ------------------------------------------------

  /** A commit that promoted something, or a start or an apply that succeeded. */
  predicate MovesPending(c: Call, r: Reply) {
    match c
    case Start(_) => r == Code(0)
    case Apply(_) => r == Code(0)
    case Committing => r == Code(0)
    case Receive(_, _) => r.Message? && r.r.Some? && r.r.value.committed
    case _ => false
  }

  /** The pending root changes only through those calls, and this is what they leave. */
  lemma PendingStep(n: Node, c: Call, sha256: Hash)
    ensures var (m, r) := Do(n, c, sha256);
            if !MovesPending(c, r) then m.peer.pend == n.peer.pend
            else match c
              case Start(coin) => m.peer.pend == Some(Evolve(Shared(n.keys.peerPk, coin), n.peer.curr))
              case Apply(ct) =>
                ct.KemCt? && n.keys.owned.Some?
                && m.peer.pend == Some(Evolve(SecretOf(ct, n.keys.owned.value), n.peer.curr))
              case _ => m.peer.pend == None && n.peer.pend == Some(m.peer.curr)
  {
    match c {
      case Start(coin) => StartExactly(n.peer, n.keys, coin, sha256);
      case Apply(ct) => ApplyExactly(n.peer, n.keys, ct);
      case Initialising(alice, bob, pk) => InitialiseExactly(n.peer, alice, bob, pk);
      case Committing => CommitExactly(n.peer);
      case _ =>
    }
  }

  /** No call of the run moved the pending root. */
  ghost predicate NoneMoves(n: Node, calls: seq<Call>, sha256: Hash)
    decreases |calls|
  {
    calls == [] ||
    (var front, c := calls[..|calls| - 1], calls[|calls| - 1];
     NoneMoves(n, front, sha256) && !MovesPending(c, Do(After(n, front, sha256), c, sha256).1))
  }

  /**
   A pending root stays until a commit takes it or a start or an apply that returned 0 replaces it,
   whatever else is called: failed starts, applies without a key pair, rolls, recoveries, receipts that
   open nothing or open on the current root, and initialisation.
   */
  lemma {:induction false} PendingStays(n: Node, calls: seq<Call>, sha256: Hash)
    requires NoneMoves(n, calls, sha256)
    ensures After(n, calls, sha256).peer.pend == n.peer.pend
    decreases |calls|
  {
    if calls != [] {
      var front, c := calls[..|calls| - 1], calls[|calls| - 1];
      PendingStays(n, front, sha256);
      PendingStep(After(n, front, sha256), c, sha256);
    }
  }

  // ---- what becomes of the epoch and the counter ---------------------------------------

  /** By how many epochs a call moves the peer on. */
  function Advance(n: Node, c: Call, r: Reply): nat {
    match c
    case Committing => if r == Code(0) then 1 else 0
    case Receive(_, _) => if MovesPending(c, r) then 1 else 0
    case Rolling => 1
    case Recovering(target) =>
      if n.peer.epoch < target <= n.peer.epoch + RECOVERY_CAP then target - n.peer.epoch else 0
    case _ => 0
  }

  function Advances(n: Node, calls: seq<Call>, sha256: Hash): nat
    decreases |calls|
  {
    if calls == [] then 0
    else
      var front, c := calls[..|calls| - 1], calls[|calls| - 1];
      var m := After(n, front, sha256);
      Advances(n, front, sha256) + Advance(m, c, Do(m, c, sha256).1)
  }

  lemma AdvanceStep(n: Node, c: Call, sha256: Hash)
    requires !c.Initialising?
    ensures var (m, r) := Do(n, c, sha256); m.peer.epoch == (n.peer.epoch + Advance(n, c, r)) % U32_LIMIT
  {
    match c {
      case Start(coin) => StartExactly(n.peer, n.keys, coin, sha256);
      case Apply(ct) => ApplyExactly(n.peer, n.keys, ct);
      case Committing => CommitExactly(n.peer);
      case _ =>
    }
  }

  lemma AddModulo(x: nat, y: nat)
    ensures (x % U32_LIMIT + y) % U32_LIMIT == (x + y) % U32_LIMIT
  {
  }

  /** The epoch counts commits, automatic commits, rolls and recovered epochs, modulo 2^32. */
  lemma {:induction false} EpochCounts(n: Node, calls: seq<Call>, sha256: Hash)
    requires forall i :: 0 <= i < |calls| ==> !calls[i].Initialising?
    ensures After(n, calls, sha256).peer.epoch == (n.peer.epoch + Advances(n, calls, sha256)) % U32_LIMIT
    decreases |calls|
  {
    hide Do, Advance;
    if calls != [] {
      var front, c := calls[..|calls| - 1], calls[|calls| - 1];
      EpochCounts(n, front, sha256);
      var m := After(n, front, sha256);
      AdvanceStep(m, c, sha256);
      AddModulo(n.peer.epoch + Advances(n, front, sha256), Advance(m, c, Do(m, c, sha256).1));
    }
  }

  /** Between two changes of epoch the numbers drawn are consecutive, modulo 2^64. */
  lemma DrawsConsecutive(n: Node, c: Call, sha256: Hash)
    ensures var (m, r) := Do(n, c, sha256);
            && (c.Drawing? ==> r == Number(n.peer.counter) && m.peer.counter == (n.peer.counter + 1) % U64_LIMIT)
            && (!c.Drawing? && Advance(n, c, r) == 0 ==> m.peer.counter == n.peer.counter)
            && (Advance(n, c, r) > 0 ==> m.peer.counter == 1)
  {
    match c {
      case Start(coin) => StartExactly(n.peer, n.keys, coin, sha256);
      case Apply(ct) => ApplyExactly(n.peer, n.keys, ct);
      case Initialising(alice, bob, pk) => InitialiseExactly(n.peer, alice, bob, pk);
      case Committing => CommitExactly(n.peer);
      case _ =>
    }
  }

  // ---- what the key store remembers ----------------------------------------------------

  function LastInstalled(calls: seq<Call>): seq<byte> {
    if calls == [] then []
    else if calls[|calls| - 1].Install? then calls[|calls| - 1].pk
    else LastInstalled(calls[..|calls| - 1])
  }

  function LastGenerated(calls: seq<Call>): Option<seq<byte>> {
    if calls == [] then None
    else if calls[|calls| - 1].Generate? then Some(calls[|calls| - 1].pk)
    else LastGenerated(calls[..|calls| - 1])
  }

  /** The ciphertext of the last start that found a key of the right length installed. */
  function LastCiphertext(calls: seq<Call>): Option<KemCt> {
    if calls == [] then None
    else
      var front, c := calls[..|calls| - 1], calls[|calls| - 1];
      if c.Start? && |LastInstalled(front)| == 1568 then Some(KemCt(LastInstalled(front), c.coin))
      else LastCiphertext(front)
  }

  /** The key of the last initialisation that was given good entropies and a key. */
  ghost function LastStampKey(calls: seq<Call>): seq<byte> {
    if calls == [] then []
    else
      var front, c := calls[..|calls| - 1], calls[|calls| - 1];
      if c.Initialising? && Varied(c.alice) && Varied(c.bob) && c.pk != [] then c.pk else LastStampKey(front)
  }

  /**
   After any calls the key store holds the key last installed with its hash, the pair last generated,
   the ciphertext of the last successful start and the key of the last successful initialisation.
   */
  lemma {:induction false} KeysRemember(p: Peer, calls: seq<Call>, sha256: Hash)
    ensures var k := After(Node(p, NO_KEYS), calls, sha256).keys;
            && k.peerPk == LastInstalled(calls) && (k.peerPk != [] ==> k.peerPkHash == sha256(k.peerPk))
            && k.owned == LastGenerated(calls) && k.kemCipher == LastCiphertext(calls)
            && k.stampPk == LastStampKey(calls)
    decreases |calls|
  {
    if calls != [] {
      var front, c := calls[..|calls| - 1], calls[|calls| - 1];
      KeysRemember(p, front, sha256);
      var m := After(Node(p, NO_KEYS), front, sha256);
      KeysStep(m, c, sha256);
    }
  }

  lemma KeysStep(n: Node, c: Call, sha256: Hash)
    requires n.keys.peerPk != [] ==> n.keys.peerPkHash == sha256(n.keys.peerPk)
    ensures var k := Do(n, c, sha256).0.keys;
            && k.peerPk == (if c.Install? then c.pk else n.keys.peerPk)
            && (k.peerPk != [] ==> k.peerPkHash == sha256(k.peerPk))
            && k.owned == (if c.Generate? then Some(c.pk) else n.keys.owned)
            && k.kemCipher == (if c.Start? && |n.keys.peerPk| == 1568 then Some(KemCt(n.keys.peerPk, c.coin)) else n.keys.kemCipher)
            && k.stampPk == (if c.Initialising? && Varied(c.alice) && Varied(c.bob) && c.pk != [] then c.pk else n.keys.stampPk)
  {
    match c {
      case Start(coin) => StartExactly(n.peer, n.keys, coin, sha256);
      case Initialising(alice, bob, pk) => InitialiseExactly(n.peer, alice, bob, pk);
      case _ =>
    }
  }
}
