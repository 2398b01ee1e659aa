/** The process-wide state of one peer, updated in place by the kernel's entry points. */
module Session {
  import opened Bytes
  import opened Crypto
  import opened MessageCipher
  import opened RootState
  import InitModule

  /** The constant-time comparison of two digests: zero exactly when they are equal. */
  method Difference(a: Stamp, b: Stamp) returns (acc: byte)
    ensures acc == 0 <==> a == b
  {
    acc := 0;
    for i := 0 to 32
      invariant acc == 0 <==> a[..i] == b[..i]
    {
      ByteWidth();
      XorBound(a[i], b[i], 8);
      OrBound(acc, Xor(a[i], b[i]), 8);
      XorZero(a[i], b[i]);
      OrZero(acc, Xor(a[i], b[i]));
      assert a[..i + 1] == a[..i] + [a[i]] && b[..i + 1] == b[..i] + [b[i]];
      acc := Or(acc, Xor(a[i], b[i]));
    }
    assert a[..32] == a && b[..32] == b;
  }

  class Session {
    var curr: Root
    var pend: Option<Root>
    var epoch: u32
    var counter: u64
    var peerPk: seq<byte>
    var peerPkHash: Stamp
    var owned: Option<seq<byte>>
    var kemCipher: Option<KemCt>
    var stampPk: seq<byte>
    const sha256: Hash

    ghost function State(): Peer
      reads this
    {
      Peer(curr, pend, epoch, counter)
    }

    ghost function KeyState(): Keys
      reads this
    {
      Keys(peerPk, peerPkHash, owned, kemCipher, stampPk)
    }

    constructor (start: Root, sha256: Hash)
      ensures State() == Peer(start, None, 0, 1)
      ensures KeyState() == NO_KEYS && this.sha256 == sha256
    {
      curr, pend, epoch, counter := start, None, 0, 1;
      peerPk, peerPkHash, owned, kemCipher, stampPk := [], ZERO_HASH, None, None, [];
      this.sha256 := sha256;
    }

    method InitialiseRootState(alice: seq<byte>, bob: seq<byte>, bobPk: seq<byte>) returns (code: u32)
      modifies this
      ensures (State(), code) == InitModule.Initialise(old(State()), alice, bob, bobPk)
      ensures KeyState() == if code == 0 then old(KeyState()).(stampPk := bobPk) else old(KeyState())
    {
      hide InitModule.EntropyReject, InitModule.Interleave;
      if InitModule.EntropyReject(alice) || InitModule.EntropyReject(bob) { return 2; }
      var interleaved := InitModule.OddEvenInterleave(alice, bob);
      // The length check passes.
      InitModule.InterleaveLong(alice, bob);
      assert |interleaved| >= 64;
      if bobPk == [] { return 3; }
      stampPk := bobPk;
      curr := Init(interleaved);
      epoch := 0;
      code := 0;
    }

    method AllocateMsgSeq() returns (msgSeq: u64)
      modifies this`counter
      ensures (State(), msgSeq) == NextMsgSeq(old(State()))
    {
      msgSeq := counter;
      counter := (counter + 1) % U64_LIMIT;
    }

    method CommitEvolution() returns (code: u32)
      modifies this
      ensures (State(), code) == Commit(old(State()))
      ensures KeyState() == old(KeyState())
    {
      match pend {
        case None => return 1;
        case Some(newKey) =>
          curr := newKey;
          pend := None;
          epoch := NextEpoch(epoch);
          counter := 1;
          return 0;
      }
    }

    method RollEpochForward() returns (e: u32)
      modifies this
      ensures State() == RollForward(old(State())) && e == epoch
      ensures KeyState() == old(KeyState())
    {
      curr := Roll(curr);
      epoch := NextEpoch(epoch);
      counter := 1;
      e := epoch;
    }

    method InstallPeerKey(pk: seq<byte>)
      modifies this
      ensures KeyState() == SetPeerPublicKey(old(KeyState()), pk, sha256)
      ensures State() == old(State())
    {
      peerPk := pk;
      peerPkHash := sha256(pk);
    }

    /** Keeps the key pair the library drew and hands out copies of both halves. */
    method GenerateBobKeypair(drawn: seq<byte>) returns (pk: seq<byte>, sk: SecretKey, code: u32)
      modifies this
      ensures KeyState() == GenerateKeypair(old(KeyState()), drawn)
      ensures pk == drawn && sk == SecretHalf(drawn) && code == 0
      ensures State() == old(State())
    {
      owned := Some(drawn);
      return drawn, SecretHalf(drawn), 0;
    }

    method BeginEvolution(coin: nat) returns (code: u32)
      modifies this
      ensures (State(), KeyState(), code) == StartEvolution(old(State()), old(KeyState()), coin, sha256)
    {
      if peerPk == [] { return 2; }
      var acc := Difference(sha256(peerPk), peerPkHash);
      if peerPkHash != ZERO_HASH && acc != 0 { return 5; }
      match Encapsulate(peerPk, coin) {
        case None => return 1;
        case Some((ct, secret)) =>
          pend := Some(Evolve(secret, curr));
          kemCipher := Some(ct);
          return 0;
      }
    }

    method AcceptPeerKem(ct: KemCt) returns (code: u32)
      modifies this
      ensures (State(), code) == ApplyPeerKem(old(State()), old(KeyState()), ct)
      ensures KeyState() == old(KeyState())
    {
      if owned.None? { return 3; }
      match Decapsulate(ct, owned.value) {
        case None => return 2;
        case Some(secret) =>
          pend := Some(Evolve(secret, curr));
          return 0;
      }
    }

    method TryDecryptWithEvolution(wire: Wire, h: Header) returns (r: Option<Received>)
      modifies this
      ensures (State(), r) == TryDecrypt(old(State()), wire, h)
      ensures KeyState() == old(KeyState())
      ensures r == None ==> State() == old(State())
    {
      var fast := Decrypt(wire, DeriveMessageKey(curr, h.epoch, h.msgSeq), h);
      if fast.Some? { return Some(Received(fast.value, false)); }
      if h.epoch == NextEpoch(epoch) {
        match pend {
          case None =>
          case Some(key) =>
            var slow := Decrypt(wire, DeriveMessageKey(key, h.epoch, h.msgSeq), h);
            if slow.Some? {
              var code := CommitEvolution();
              return Some(Received(slow.value, code == 0));
            }
        }
      }
      return None;
    }

    /** The recovery loop ends where one iterated roll to the target does. */
    method RecoverAfterLoss(target: u32) returns (r: u32)
      modifies this
      ensures (State(), r) == Recover(old(State()), target)
      ensures KeyState() == old(KeyState())
    {
      var e := epoch;
      if target <= e { return e; }
      var gap := target - e;
      if gap > RECOVERY_CAP { return U32_MAX; }
      var last := e;
      for i := 0 to gap
        invariant State() == RollBy(old(State()), i) && last == epoch
        invariant KeyState() == old(KeyState())
      {
        assert RollN(old(curr), i + 1) == Roll(RollN(old(curr), i));
        var step := RollEpochForward();
        if step == U32_MAX { return U32_MAX; }
        last := step;
      }
      return last;
    }
  }

  /**
   One evolution cycle on two sessions that share a root: Bob's key goes to Alice, her ciphertext to
   Bob, both commit, and they agree again one epoch on.
   */
  method EvolutionCycle(alice: Session, bob: Session, drawn: seq<byte>, coin: nat)
    requires alice != bob && alice.curr == bob.curr && alice.epoch == bob.epoch < U32_MAX
    requires |drawn| == ML_KEM_PK_LEN
    modifies alice, bob
    ensures alice.curr == bob.curr == Evolve(Shared(drawn, coin), old(alice.curr))
    ensures alice.epoch == bob.epoch == old(alice.epoch) + 1
    ensures alice.pend == bob.pend == None && alice.counter == bob.counter == 1
  {
    var pk, _, _ := bob.GenerateBobKeypair(drawn);
    alice.InstallPeerKey(pk);
    var started := alice.BeginEvolution(coin);
    assert started == 0;
    var accepted := bob.AcceptPeerKem(alice.kemCipher.value);
    assert accepted == 0;
    var a := alice.CommitEvolution();
    var b := bob.CommitEvolution();
  }
}
