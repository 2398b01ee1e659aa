/**
 One peer's session state and every operation on it as a function of the old state
 (`root_state.rs`, `message_cipher.rs`, `evolution.rs`, `anti_dos.rs`).

 Epochs are 32-bit and sequence numbers 64-bit; both wrap, as in a release build.
 */
module RootState {
  import opened Bytes
  import opened Crypto
  import opened MessageCipher

  /** The three guarded globals and the message counter. */
  datatype Peer = Peer(curr: Root, pend: Option<Root>, epoch: u32, counter: u64)

  function NextEpoch(e: u32): u32 {
    if e == U32_MAX then 0 else e + 1
  }

  function Commit(p: Peer): (Peer, u32) {
    match p.pend
    case None => (p, 1)
    case Some(k) => (Peer(k, None, NextEpoch(p.epoch), 1), 0)
  }

  /** The pending root is left alone. */
  function RollForward(p: Peer): Peer {
    Peer(Roll(p.curr), p.pend, NextEpoch(p.epoch), 1)
  }

  function NextMsgSeq(p: Peer): (Peer, u64) {
    (p.(counter := (p.counter + 1) % U64_LIMIT), p.counter)
  }

  /** Alice's half of a round; an outstanding pending root is overwritten. */
  function Pending(p: Peer, secret: Secret): Peer {
    p.(pend := Some(Evolve(secret, p.curr)))
  }

  datatype Received = Received(text: seq<byte>, committed: bool)

  function TryDecrypt(p: Peer, wire: Wire, h: Header): (Peer, Option<Received>) {
    var fast := Decrypt(wire, DeriveMessageKey(p.curr, h.epoch, h.msgSeq), h);
    if fast.Some? then
      (p, Some(Received(fast.value, false)))
    else if h.epoch == NextEpoch(p.epoch) && p.pend.Some? then
      var slow := Decrypt(wire, DeriveMessageKey(p.pend.value, h.epoch, h.msgSeq), h);
      if slow.Some? then (Commit(p).0, Some(Received(slow.value, true))) else (p, None)
    else
      (p, None)
  }

  /** k roll-forwards at once, with no wrap. */
  function RollBy(p: Peer, k: nat): Peer
    requires p.epoch + k < U32_LIMIT
  {
    if k == 0 then p else Peer(RollN(p.curr, k), p.pend, p.epoch + k, 1)
  }

  const RECOVERY_CAP := 100_000

  /** Where a recovery to `target` ends, said without the loop. */
  function Recover(p: Peer, target: u32): (Peer, u32) {
    if target <= p.epoch then (p, p.epoch)
    else if target - p.epoch > RECOVERY_CAP then (p, U32_MAX)
    else (RollBy(p, target - p.epoch), target)
  }

  // ---- evolution keys ------------------------------------------------------------------

  /** SHA-256, as some function to 32 bytes. */
  type Hash = seq<byte> -> Stamp

  const ZERO_HASH: Stamp := seq(32, _ => 0)

  /**
   Alice's copy of Bob's public key and its hash, Bob's own key pair, the stored ciphertext, and the
   copy of Bob's key that initialisation keeps for the identity stamp.
   */
  datatype Keys = Keys(
    peerPk: seq<byte>, peerPkHash: Stamp, owned: Option<seq<byte>>, kemCipher: Option<KemCt>, stampPk: seq<byte>)

  const NO_KEYS := Keys([], ZERO_HASH, None, None, [])

  function SetPeerPublicKey(k: Keys, pk: seq<byte>, sha256: Hash): Keys {
    k.(peerPk := pk, peerPkHash := sha256(pk))
  }

  /** Bob's key pair is known by its public half; generating again replaces it. */
  function GenerateKeypair(k: Keys, pk: seq<byte>): Keys {
    k.(owned := Some(pk))
  }

  function StartEvolution(p: Peer, k: Keys, coin: nat, sha256: Hash): (Peer, Keys, u32) {
    if k.peerPk == [] then (p, k, 2)
    else if k.peerPkHash != ZERO_HASH && sha256(k.peerPk) != k.peerPkHash then (p, k, 5)
    else match Encapsulate(k.peerPk, coin)
      case None => (p, k, 1)
      case Some((ct, secret)) => (Pending(p, secret), k.(kemCipher := Some(ct)), 0)
  }

  function ApplyPeerKem(p: Peer, k: Keys, ct: KemCt): (Peer, u32) {
    if k.owned.None? then (p, 3)
    else match Decapsulate(ct, k.owned.value)
      case None => (p, 2)
      case Some(secret) => (Pending(p, secret), 0)
  }

  /** Every way the key store changes. */
  datatype KeyOp = Install(pk: seq<byte>) | Generate(pk: seq<byte>) | Begin(coin: nat)

  function KeyStep(p: Peer, k: Keys, op: KeyOp, sha256: Hash): (Peer, Keys) {
    match op
    case Install(pk) => (p, SetPeerPublicKey(k, pk, sha256))
    case Generate(pk) => (p, GenerateKeypair(k, pk))
    case Begin(coin) => var (p', k', _) := StartEvolution(p, k, coin, sha256); (p', k')
  }

  function KeyRun(p: Peer, k: Keys, ops: seq<KeyOp>, sha256: Hash): (Peer, Keys)
    decreases |ops|
  {
    if ops == [] then (p, k)
    else var (p', k') := KeyStep(p, k, ops[0], sha256); KeyRun(p', k', ops[1..], sha256)
  }

  lemma {:induction false} KeyRunBound(p: Peer, k: Keys, ops: seq<KeyOp>, sha256: Hash)
    requires k.peerPk == [] || k.peerPkHash == sha256(k.peerPk)
    ensures var k' := KeyRun(p, k, ops, sha256).1; k'.peerPk == [] || k'.peerPkHash == sha256(k'.peerPk)
    decreases |ops|
  {
    if ops != [] {
      var (p', k') := KeyStep(p, k, ops[0], sha256);
      KeyRunBound(p', k', ops[1..], sha256);
    }
  }

  /**
   After any sequence of key-store calls the hash check cannot fire, and a start fails only for
   want of a public key of the right length.
   */
  lemma HashCheckNeverFires(p: Peer, ops: seq<KeyOp>, coin: nat, sha256: Hash)
    ensures var (q, k) := KeyRun(p, NO_KEYS, ops, sha256);
            var code := StartEvolution(q, k, coin, sha256).2;
            && code != 5
            && (code == 0 <==> |k.peerPk| == ML_KEM_PK_LEN)
  {
    KeyRunBound(p, NO_KEYS, ops, sha256);
  }

  /**
   Both halves of a round pend the same root exactly when the two peers share a current root and
   the ciphertext was made for Bob's key.
   */
  lemma HalvesAgree(a: Peer, b: Peer, ka: Keys, kb: Keys, coin: nat, sha256: Hash)
    requires StartEvolution(a, ka, coin, sha256).2 == 0
    requires kb.owned.Some?
    ensures var (a', ka', _) := StartEvolution(a, ka, coin, sha256);
            var (b', code) := ApplyPeerKem(b, kb, ka'.kemCipher.value);
            code == 0 && (a'.pend == b'.pend <==> a.curr == b.curr && ka.peerPk == kb.owned.value)
  {
  }
}
