# SecureCore kernel: a Dafny model

SecureCore is the cryptographic kernel of a peer-to-peer messenger. This project models its two hard
parts and the codecs and estimators around them, and proves what they keep over whole runs.

- **Key evolution between two peers.** Each peer holds a current root, an optional pending root, an
  epoch and a message counter. Alice encapsulates, Bob decapsulates, both commit, and a peer that
  opens a message of the next epoch under its pending root commits by itself. The two peers and the
  network are a transition system (`Protocol.dfy`) over the operations of one peer (`RootState.dfy`),
  which the class in `Session.dfy` carries out in place. Ordinary messages may be dropped, duplicated,
  reordered, replayed under any header, or forged. Runs and the number of rounds are unbounded.
  Each public call is one step there; `Interleaving.dfy` takes the calls apart at their locks, and
  `Kernel.dfy` says of every call when it fails and what any sequence of calls keeps.
- **The vault.** A file with a superblock, an allocation bitmap and encrypted blocks. Every operation
  takes as a parameter how the operating system's write went: done, or failed with an arbitrary set of
  bytes landed. A crash is a failed write followed by a reopen. `Vault.dfy` holds the operations as
  values, `VirtualVolume.dfy` the class and the loops that carry them out, and `VaultRuns.dfy`,
  `VaultStore.dfy` and `Reserved.dfy` what holds over runs.

Cryptography is symbolic. In the protocol, HKDF, SHA-256, ML-KEM and AES-GCM are free constructors
(`Crypto.dfy`): equal outputs come from equal inputs, decapsulation by the right key returns the
encapsulated secret, and a sealed body opens only under its own key, nonce and associated data. In the
vault, ChaCha20-Poly1305, the block-key derivation and SHA-256 are arbitrary functions of which one law
is assumed (`Vault.Lawful`: opening undoes sealing, and sizes are right); `Vault.LawfulExists` shows
that it can be met. Random draws, nonces, coins and I/O outcomes are parameters.

## What a schedule may do

`Protocol.Allowed` names three regimes. `Any` rules out only wrap-around of the 32-bit epoch and the
64-bit counter, and sealed bodies nobody made. `NoRollPending` also keeps a peer from rolling over its
own pending root. `Disciplined` is what the kernel leaves to its callers:

- Alice starts a round with nothing pending, with a fresh ciphertext, and after opening a message that
  Bob sent at the epoch she is in;
- what Bob is given is one of Alice's ciphertexts, for the first time or again while the root it yields
  is still pending;
- nobody rolls over their own pending root, and Bob rolls only to catch up with Alice and with nothing
  under way.

The peers are *together* when they are in one of five phases (`Convergence.Together`). That is the case
exactly when the open round closes well in every order of the deliveries and commits left
(`Closing.TogetherIff`): nothing is left open and the peers agree or one is ahead by rolls alone.
`Convergence.Keeps` gives each call a guard on the state it is made in.
`Convergence.GuardIff` shows it exact from every state the peers can be in, and
`Convergence.StayTogetherIff` over every run. Disciplined runs meet all guards
(`Convergence.DisciplinedRun`). `Schedules.dfy` shows how calls that miss their guard lead to a fork,
after which no schedule whatever brings the peers back (`Schedules.ForkedForever`).

## Where the code and its comments differ

The model follows the code.

- `message_cipher.rs` announces a random nonce; the nonce is computed from epoch, timestamp and
  sequence number.
- `message_cipher.rs` calls the sequence number unique per epoch and the nonce unique per message. Both
  hold for one sender. The two peers count separately under one root, so messages of theirs with equal
  number and timestamp share key and nonce (`Protocol.SharedExactly`, `Protocol.CrossingSends`).
- `anti_dos.rs` has Bob roll to the epoch he reads off a packet. That brings him to Alice's root exactly
  when no round is open (`Resync.RecoveryAfterLoss`).
- `evolution.rs` announces Alice's own randomness in the salt; only the shared secret is used.
- `root_state.rs` says that a roll takes all three locks; it takes two and leaves the pending root.
- `virtual_volume.rs` says that the bitmap is flushed every tenth write; it is flushed every time.
- `init_module.rs` resets root and epoch but neither the pending root nor the message counter
  (`InitModule.StartStateIff`). Its check for a short interleaving cannot fire.
- The public-key hash comparison in `start_evolution` cannot fail through the calls that exist
  (`RootState.HashCheckNeverFires`).
- `try_decrypt_with_evolution` says that it commits atomically on success with the pending key. Reading
  that key and committing are two steps; `Interleaving.CommitsWhatOpened` says what a thread in between
  can change.
- `init_canary_slots` says that the allocator never hands out blocks 994 to 999 again; that is so
  exactly when their bits also reached the disk (`Reserved.ReservedIff`,
  `VaultClients.IgnoredErrorLosesReservation`).

## Model

| member | source | states |
|---|---|---|
| Bytes.DecodeEncode | secure_core/src/message_cipher.rs:57-58 | decoding a little-endian word of any width undoes encoding it, for every value that fits |
| Bytes.EncodeDecode | secure_core/src/virtual_volume.rs:95-101 | every byte string is the encoding of the number it decodes to |
| Bytes.XorInvolution | secure_core/src/message_cipher.rs:126 | exclusive or with one word undoes itself |
| Bytes.TestMask | secure_core/src/virtual_volume.rs:435-436 | masking with a one-bit mask is non-zero exactly when that bit is set |
| Bytes.SetMask | secure_core/src/virtual_volume.rs:438 | or-ing the mask sets that bit and keeps all others |
| Bytes.ClearMask | secure_core/src/virtual_volume.rs:485 | and-ing the complement clears that bit and keeps all others |
| MessageCipher.KeyInfoInjective | secure_core/src/message_cipher.rs:56-58 | the 12-byte key info determines epoch and sequence number |
| MessageCipher.KeysIffAgree | secure_core/src/message_cipher.rs:54-63 | two message keys are equal exactly when root, epoch and sequence number are |
| MessageCipher.NonceIff | secure_core/src/message_cipher.rs:123-128 | nonces and key infos are 12 bytes; two nonces are equal exactly when the epochs are and the mixed words are |
| MessageCipher.NonceAndInfoInjective | secure_core/src/message_cipher.rs:123-128 | key info and nonce together determine epoch, sequence number and timestamp, although the nonce mixes the last two |
| MessageCipher.AadInjective | secure_core/src/message_cipher.rs:135-144 | the associated data is 55 bytes and determines stamp, direction, epoch, sequence number and timestamp |
| MessageCipher.KeyInfoFields | secure_core/src/message_cipher.rs:56-58 | where epoch and number are in the 12 bytes of key info |
| MessageCipher.NonceFields | secure_core/src/message_cipher.rs:123-128 | where the epoch is in the nonce, and that the number recovers the timestamp from the rest |
| MessageCipher.AadFields | secure_core/src/message_cipher.rs:135-144 | where stamp, direction, epoch, number, timestamp and version are in the 55 bytes, and the value of each |
| MessageCipher.DecryptIffAgree | secure_core/src/message_cipher.rs:150-174 | decryption of an encryption returns the plaintext exactly when the key and every header field agree, and nothing otherwise |
| MessageCipher.DecryptExactly | secure_core/src/message_cipher.rs:165-174 | a wire opens exactly when its body was sealed under that key, the nonce the wire carries and that header |
| RootState.HashCheckNeverFires | secure_core/src/evolution.rs:84-108 | after any sequence of key-store calls a start never reports a swapped key, and succeeds exactly when the stored key has the right length |
| RootState.HalvesAgree | secure_core/src/evolution.rs:128-135 | the two halves of a round pend one root exactly when the peers share a current root and the ciphertext was made for Bob's key |
| Kernel.InitialiseExactly | secure_core/src/init_module.rs:65-118 | each return value exactly when, over the bytes given: 0 for two entropies of at least 64 bytes that are not one byte repeated and a key, 3 without the key, 2 otherwise; a rejected call changes nothing |
| Kernel.StartExactly | secure_core/src/evolution.rs:95-126 | each return value of a start exactly when; an error changes neither session nor key store, success changes the pending root and the stored ciphertext only |
| Kernel.ApplyExactly | secure_core/src/evolution.rs:151-169 | each return value of an apply exactly when: 3 without a key pair, 2 for bytes that do not parse, 0 otherwise; an error changes nothing, success the pending root only |
| Kernel.CommitExactly | secure_core/src/root_state.rs:63-79 | 0 exactly when something is pending, which is promoted, and 1 otherwise with nothing changed |
| Kernel.FailureChangesNothing | secure_core/src/evolution.rs:95-169 | whatever was called, a call that reports failure leaves session and key store as they were |
| Kernel.PendingStep | secure_core/src/root_state.rs:43-79 | the pending root changes only through a commit that promotes it and a start or apply that returned 0, and this is what each leaves |
| Kernel.PendingStays | secure_core/src/root_state.rs:43-79 | over any calls, a pending root stays until one of those, through failed starts, applies without a key pair, rolls, recoveries, receipts and initialisation |
| Kernel.EpochCounts | secure_core/src/root_state.rs:63-101 | over any calls but initialisation, the epoch counts commits, automatic commits, rolls and recovered epochs modulo 2^32 |
| Kernel.DrawsConsecutive | secure_core/src/message_cipher.rs:33-44 | every call moves the counter by one if it draws, back to one if it changes the epoch, and not at all otherwise |
| Kernel.KeysRemember | secure_core/src/evolution.rs:63-126 | after any calls the key store holds the key last installed and its hash, the pair last generated, the ciphertext of the last successful start and the key of the last successful initialisation |
| Session.Difference | secure_core/src/evolution.rs:102-106 | the constant-time accumulator is zero exactly when the two digests are equal |
| Session.Session.InitialiseRootState | secure_core/src/init_module.rs:93-118 | loads the root, resets the epoch and keeps Bob's key for the identity stamp, or rejects bad entropy or a missing key and changes nothing |
| Session.Session.AllocateMsgSeq | secure_core/src/message_cipher.rs:37-39 | returns the counter and advances it by one modulo 2^64 |
| Session.Session.CommitEvolution | secure_core/src/root_state.rs:63-79 | promotes the pending root, clears it, advances the epoch and resets the counter; with nothing pending returns 1 and changes nothing |
| Session.Session.RollEpochForward | secure_core/src/root_state.rs:83-101 | replaces the current root by its roll, advances the epoch, resets the counter, leaves the pending root |
| Session.Session.InstallPeerKey | secure_core/src/evolution.rs:84-91 | stores the key and its hash and leaves the session state |
| Session.Session.GenerateBobKeypair | secure_core/src/evolution.rs:65-74 | replaces Bob's key pair, hands out both halves and leaves everything else |
| Session.EvolutionCycle | secure_core/src/evolution.rs:179-205 | a full cycle on two sessions that share a root ends in agreement on the evolved root one epoch on, with nothing pending and numbering restarted |
| Session.Session.BeginEvolution | secure_core/src/evolution.rs:95-126 | each error path changes nothing; success pends the evolved root and stores the ciphertext |
| Session.Session.AcceptPeerKem | secure_core/src/evolution.rs:151-169 | each error path changes nothing; success pends the root evolved from the decapsulated secret |
| Session.Session.TryDecryptWithEvolution | secure_core/src/message_cipher.rs:91-119 | current root first, then the pending root if the epoch is the next one, committing on success; a receipt that opens nothing changes nothing |
| Session.Session.RecoverAfterLoss | secure_core/src/anti_dos.rs:24-37 | the loop ends where one iterated roll to the target does, or refuses a gap over 100,000 unchanged |
| InitModule.OddEvenInterleave | secure_core/src/init_module.rs:53-61 | alternates the bytes of both entropies up to the shorter one |
| InitModule.InterleaveIff | secure_core/src/init_module.rs:53-61 | two interleavings are equal exactly when the entropies agree up to the length of the shorter of each pair |
| InitModule.SameRootIff | secure_core/src/init_module.rs:93-118 | two initialised peers share a root exactly when the entropies they fed in agree up to the length of the shorter of each pair |
| InitModule.StartStateIff | secure_core/src/init_module.rs:115-117 | initialisation yields the protocol's starting state exactly when nothing was pending and the counter was unused |
| Pairing.PairedTogetherIff | secure_core/src/init_module.rs:93-118 | with nothing under way, two peers that were initialised are together exactly when the roots left pending are the same and, if there are none, the entropies agree as far as they are used |
| Protocol.LocalIsKernel | secure_core/src/evolution.rs:95-169 | the start and apply steps of the two-peer system are the kernel's calls |
| Conformance.StepIsCall | secure_core/src/evolution.rs:95-173 | every step of the two-peer system is one kernel call of one peer, which leaves the other peer alone and adds to ciphertexts and log what the call reported |
| Protocol.BaseRun | secure_core/src/root_state.rs:63-101 | under any schedule epochs only grow, every message was sealed under a root its sender held at that epoch, and messages are ordered |
| Protocol.AutoCommitAgreement | secure_core/src/message_cipher.rs:105-118 | under any schedule a peer that commits on receipt moves to a root and epoch the other peer had held; a receipt that opens nothing leaves the state |
| Protocol.SequenceUniqueness | secure_core/src/message_cipher.rs:33-63 | under any schedule one peer's (epoch, sequence) pairs strictly increase, so no two of its messages share a key or a wire form |
| Protocol.SharedExactly | secure_core/src/message_cipher.rs:121-128 | under any schedule two messages share key and nonce exactly when root, epoch, number and timestamp agree, and then the two peers sent one each |
| Protocol.CrossingSends | secure_core/src/message_cipher.rs:33-63 | from any state, what the two peers send next shares key and nonce exactly when they agree, have sent equally many messages and use equal timestamps |
| Protocol.FirstSendsShare | secure_core/src/message_cipher.rs:33-63 | a run in which two messages share key and nonce |
| Protocol.SequenceDense | secure_core/src/message_cipher.rs:33-44 | under any schedule the k-th message a peer sends at an epoch carries the number k, so numbering restarts at one with each commit, auto-commit and roll and never yields zero |
| Protocol.RootDeterminesEpoch | secure_core/src/root_state.rs:71-95 | while nobody rolls over a pending root, no root is ever held at two epochs, by either peer |
| Protocol.FastPathEpoch | secure_core/src/message_cipher.rs:96-102 | whatever opens under the current root carries the local epoch, although the fast path never compares them |
| Convergence.GuardIff | secure_core/src/evolution.rs:95-173 | from every state the peers can be in, any call leaves them together exactly when it meets its guard: a start needs a settled pair (an old coin must pend what is pending), Bob may be given what is under way or what yields the root he holds pending, a peer may roll with nothing pending, Bob also only with nothing under way |
| Convergence.StayTogetherIff | secure_core/src/evolution.rs:95-173 | in every run whatever, the peers are together after each call exactly when each call met its guard |
| Convergence.DisciplinedRun | secure_core/src/evolution.rs:95-173 | every disciplined run meets every guard |
| Closing.TogetherIff | secure_core/src/evolution.rs:95-173 | the peers are together exactly when every order of the outstanding deliveries and commits, once nothing is open, ends in agreement or with one ahead by rolls alone |
| Closing.GuardMeans | secure_core/src/evolution.rs:95-173 | after any call from such a state the open round closes well in every order exactly when the call met its guard |
| Convergence.Converges | secure_core/src/evolution.rs:95-173 | in every guarded run the peers agree, or one is a round ahead on the root the other holds pending or will derive from the one undelivered ciphertext (and possibly rolled on from it), or one is ahead by rolls alone with no round open |
| Convergence.ConvergesWithoutRolls | secure_core/src/message_cipher.rs:85-119 | without rolls the peers agree or exactly one is one epoch ahead on the root the other holds pending or will derive |
| Resync.OneMessageSettles | secure_core/src/message_cipher.rs:105-114 | one message from the peer that has committed makes the other commit by itself and settles the pair exactly when it is one epoch ahead; from further ahead it is not opened |
| Resync.Resynchronise | secure_core/src/evolution.rs:151-173 | from every state of a guarded run at most four more disciplined steps close an open round, or one more than the lead if a peer rolled on past it; with no round open one roll per epoch of lag |
| Resync.RecoverIff | secure_core/src/anti_dos.rs:8-37 | recovering to any later epoch within the cap, also one past Alice's, keeps the peers together exactly when Bob has nothing pending and nothing is under way, and makes them agree exactly when no round is open and the epoch is hers |
| Resync.RecoveryAfterLoss | secure_core/src/anti_dos.rs:8-37 | in every state of a guarded run, Bob recovering to the epoch he reads off Alice's message agrees with her and opens that message exactly when no round is open |
| Resync.RecoveryMisses | secure_core/src/anti_dos.rs:8-37 | a guarded run that leaves Alice ahead with a round open, after which the recovery ends on another root |
| Resync.RecoverIsRolls | secure_core/src/anti_dos.rs:30-36 | a recovery of either peer by n epochs is n single roll steps of the two-peer system |
| Schedules.ForkedForever | secure_core/src/evolution.rs:128-135 | once no root of one peer is related to one of the other, no schedule whatever makes them agree again, and neither opens what the other sends |
| Schedules.OverwrittenStart | secure_core/src/evolution.rs:119-124 | from every state with a ciphertext under way, a fresh start over the pending root and delivery of the old ciphertext forks the peers |
| Schedules.StrayCiphertext | secure_core/src/evolution.rs:164-167 | from every settled state, committing any ciphertext that is not under way, replayed or made by a stranger, forks the peers when Alice moves on |
| Schedules.UnheardStart | secure_core/src/evolution.rs:95-126 | from every state in which Alice committed before Bob had the ciphertext, a second round of which he commits only the second ciphertext forks the peers |
| Schedules.BobRollsAhead | secure_core/src/root_state.rs:83-101 | from every settled state, Bob rolling ahead and Alice committing a round forks the peers |
| Schedules.RollNeedsNoPending | secure_core/src/root_state.rs:86-97 | from every state the peers can be in, a roll never leads to one root at two epochs, in any continuation without another roll over a pending root, exactly when the peer that rolls has nothing pending |
| Schedules.RollOverPending | secure_core/src/root_state.rs:86-97 | from every state with a ciphertext under way, a roll over the pending root leaves one root at two epochs, and the fast path opens a message of a foreign epoch |
| Recovery.PathIndependence | secure_core/src/anti_dos.rs:24-37 | any sequence of in-cap recoveries gives the root and epoch of one iterated roll to the largest target |
| Recovery.OrderIrrelevant | secure_core/src/anti_dos.rs:24-37 | the same targets in any order and number end alike |
| Recovery.ErrorExactly | secure_core/src/anti_dos.rs:26-36 | the error value is returned exactly when the gap is over the cap, unchanged, or the epoch reached is that value |
| Recovery.InterleavedRecovery | secure_core/src/anti_dos.rs:24-37 | for any number of threads and every interleaving of lock-protected steps, the root is the start rolled once per epoch gained, every in-cap call returns at least its target and at most the epoch, and the epoch stays within the sum asked for |
| Recovery.BoundAttained | secure_core/src/anti_dos.rs:30-36 | some interleaving returns every thread and reaches that sum |
| Recovery.SoloRecovers | secure_core/src/anti_dos.rs:24-37 | a thread that nobody interrupts ends where one recovery does and returns what it returns |
| Interleaving.ReceiptIsOneStep | secure_core/src/message_cipher.rs:91-119 | at the granularity of the locks, a receipt whose session no other thread changes meanwhile returns and leaves what the single step does |
| Interleaving.WritersAreOneStep | secure_core/src/root_state.rs:63-101 | left alone, a start or apply, a commit and a roll are their single steps too |
| Interleaving.CommitsWhatOpened | secure_core/src/message_cipher.rs:105-114 | for any other threads and any interleaving, a receipt commits the root that opened the message exactly when nobody wrote the pending root since it was read or the last writer set the same; another root set meanwhile is committed instead, and after a commit meanwhile nothing is |
| Interleaving.WrongRootCommitted | secure_core/src/message_cipher.rs:105-114 | an interleaving with one start or apply that commits a root the message says nothing about, which no order of the whole calls does |
| Interleaving.MessageLost | secure_core/src/message_cipher.rs:96-106 | an interleaving with one commit that loses a message both orders of the whole calls open |
| Interleaving.EvolvesCurrentIff | secure_core/src/evolution.rs:95-169 | for any interleaving, a start or apply pends what its single step would exactly when the current root is still the one it read |
| Interleaving.OpensOnlyHeld | secure_core/src/message_cipher.rs:91-119 | in every interleaving, what a receipt returns opened under a root the peer held or held pending during the run |
| Locks.ProgramOrdered | secure_core/src/root_state.rs:63-87 | every sequence of calls takes locks in one ascending order and gives all of them back |
| Locks.DeadlockFree | secure_core/src/evolution.rs:84-169 | for any number of threads, any calls and any interleaving so far, some thread can step, or all are done and every lock is free |
| Locks.ChangesTogether | secure_core/src/root_state.rs:63-101 | a commit, a roll and a key installation at one moment hold exactly the locks of what they change |
| Locks.ReadsAndWritesApart | secure_core/src/evolution.rs:95-169 | a start and an apply never hold the locks of the current and the pending root at once |
| Locks.Exclusive | secure_core/src/root_state.rs:63-101 | in any interleaving no two threads hold a lock in common |
| Locks.OppositeOrderDeadlocks | secure_core/src/root_state.rs:64-66 | two threads that start with nothing and nest two locks in opposite orders reach a state in which neither can step |
| Superblock.ReadWrite | secure_core/src/virtual_volume.rs:94-120 | reading undoes writing for every field value |
| Superblock.WriteRead | secure_core/src/virtual_volume.rs:94-120 | a readable block is the image of what it reads as exactly when its reserved bytes are zero |
| Bitmap.SetBitIsSet | secure_core/src/virtual_volume.rs:434-438 | setting a bit in the byte array allocates that block and no other |
| Bitmap.ClearBitIsSet | secure_core/src/virtual_volume.rs:473-485 | clearing a bit frees that block and no other |
| Bitmap.FreeCountIsComplement | secure_core/src/virtual_volume.rs:298-306 | the recount is the number of blocks less the number of allocated ones |
| Bitmap.CountedMeansFound | secure_core/src/virtual_volume.rs:423-453 | a positive count and a successful scan are the same thing |
| Storage.AtomicIffOneByte | secure_core/src/virtual_volume.rs:577-581 | an in-place rewrite survives every tear as old or new exactly when it changes at most one byte |
| Vault.OpenSeal | secure_core/src/virtual_volume.rs:330-387 | a sealed block fills 4096 bytes and opens to its payload |
| Vault.MovedBlock | secure_core/src/virtual_volume.rs:330-387 | a block starts with its nonce and is sealed under its own key: in the place of another it opens as the cipher opens it under that block's key |
| Vault.ReadExactly | secure_core/src/virtual_volume.rs:330-354 | a read succeeds exactly when the block exists and opens, with what it opens to; which error otherwise |
| Vault.OpenExactly | secure_core/src/virtual_volume.rs:258-319 | any file is refused for exactly one stated reason over its bytes, or yields the blocks it names, the bitmap it holds and its free count |
| Vault.OpenOrCreateExactly | secure_core/src/virtual_volume.rs:169-200 | too many blocks are refused; a missing or empty file, and no other, becomes a new container; any other is opened as it is, whatever number of blocks was asked for |
| VirtualVolume.TestBit | secure_core/src/virtual_volume.rs:301-303 | the mask test says whether the block is free |
| VirtualVolume.CountFree | secure_core/src/virtual_volume.rs:298-306 | the loop counts the blocks that are not allocated |
| VirtualVolume.Scan | secure_core/src/virtual_volume.rs:433-448 | the loop finds the least free block or none |
| VirtualVolume.Open | secure_core/src/virtual_volume.rs:258-319 | every refusal and the recount of an opened container |
| VirtualVolume.Volume.AllocateBlock | secure_core/src/virtual_volume.rs:422-454 | the whole new volume and result, for every outcome of the write |
| VirtualVolume.Volume.WriteBitmap | secure_core/src/virtual_volume.rs:573-585 | the bitmap region is rewritten as far as the write landed, memory is left |
| VirtualVolume.Volume.ReserveBlock | secure_core/src/virtual_volume.rs:458-467 | the whole new volume and result, for every outcome of the write |
| VirtualVolume.Volume.FreeDataBlock | secure_core/src/virtual_volume.rs:470-490 | the whole new volume and result, for every outcome of the write |
| VirtualVolume.Volume.WriteDataBlock | secure_core/src/virtual_volume.rs:361-387 | the block's own bytes are rewritten as far as the write landed |
| VirtualVolume.Volume.ReadDataBlock | secure_core/src/virtual_volume.rs:330-354 | range check, decryption, and a payload of the right size |
| VirtualVolume.WriteVaultBlocks | secure_core/src/lib.rs:106-118 | the count written and the state left by the loop, with no index overflow |
| VirtualVolume.ReadVaultBlocks | secure_core/src/lib.rs:94-105 | as many blocks as can be read fill the front of the buffer, the rest of the buffer is untouched |
| VirtualVolume.SecureEraseBlock | secure_core/src/lib.rs:121-128 | overwrite then free; no free if the write failed |
| VirtualVolume.EraseErases | secure_core/src/lib.rs:121-128 | a successful erase leaves the block free and holding noise and every other block as it was |
| VirtualVolume.InitCanarySlots | secure_core/src/lib.rs:147-160 | the six reservations with errors ignored, then the five canaries up to the first failure |
| VirtualVolume.CheckCanarySlots | secure_core/src/lib.rs:135-145 | the loop's verdict on blocks 995 to 999 |
| VirtualVolume.ValidateCanarySlots | secure_core/src/lib.rs:133-146 | that verdict; success raises the intact flag, and failure leaves it as it was |
| VaultRuns.GoodCreate | secure_core/src/virtual_volume.rs:203-255 | a new container satisfies the invariant, is wholly free, and memory and disk agree |
| VaultRuns.GoodReopen | secure_core/src/virtual_volume.rs:169-319 | reopening any reachable container succeeds whatever number of blocks is asked for, and loads its size and the bitmap on disk with its true count |
| VaultRuns.WrongKeyRejected | secure_core/src/virtual_volume.rs:169-283 | another key opens a reachable container exactly when it has the same hash, and is refused as wrong otherwise |
| VaultRuns.GoodStep | secure_core/src/virtual_volume.rs:422-490 | every operation, however its write went, keeps the invariant: the count is right, no bit past the end is set in memory or on disk, and the superblock stands |
| VaultRuns.AllocatorSound | secure_core/src/virtual_volume.rs:422-454 | in every reachable state allocation fails exactly when all blocks are taken, otherwise takes the least free one; the inconsistency error never occurs and nothing underflows |
| VaultRuns.ReserveMoves | secure_core/src/virtual_volume.rs:463-466 | a reservation lowers the count by exactly one if the block was free, without underflow |
| VaultRuns.FreeMoves | secure_core/src/virtual_volume.rs:477-488 | a free raises the count by exactly one if the block was taken |
| VaultRuns.PutFrame | secure_core/src/virtual_volume.rs:361-387 | a data write touches neither superblock nor bitmap nor another block, and its own block as far as it landed |
| VaultRuns.CrashAtomicRun | secure_core/src/virtual_volume.rs:573-585 | after any run whose bitmap rewrites were done, however the next one is torn, reopening finds exactly the bitmap before or after it with its true count |
| VaultRuns.PersistAtomicIff | secure_core/src/virtual_volume.rs:573-585 | from any state a bitmap rewrite is atomic under every tear exactly when the bitmaps on disk and in memory differ in at most one byte |
| VaultRuns.TakeAndReleaseAtomicIff | secure_core/src/virtual_volume.rs:438-488 | the same for taking a block and for freeing one, with the bitmap each would write |
| VaultRuns.FailedPersistBreaksAtomicity | secure_core/src/virtual_volume.rs:438-444 | after one lost rewrite, taking a block in another byte is no longer atomic |
| VaultStore.Refines | secure_core/src/virtual_volume.rs:330-490 | each operation, however its write went, is a step of an abstract store of two index sets and a payload map, with the same result |
| VaultStore.VaultRefinesStore | secure_core/src/virtual_volume.rs:169-490 | every run on a fresh container is a run of the empty store with the same results |
| VaultStore.ReadsLastWritten | secure_core/src/virtual_volume.rs:330-387 | after any run a read returns the payload last written to the block, if that write was done |
| Reserved.ReservedIff | secure_core/src/virtual_volume.rs:456-467 | no run without an explicit free ever hands a block out, exactly when its bit is set in memory and on disk |
| Reserved.HeldWithoutReopen | secure_core/src/virtual_volume.rs:456-467 | until a reopen the bit in memory is enough |
| VaultClients.BatchCount | secure_core/src/lib.rs:106-118 | with working I/O a batch writes min(n, total - start) blocks from a data block on, and none otherwise |
| VaultClients.BatchFrame | secure_core/src/lib.rs:106-118 | a batch changes no block outside its range, no allocation and no metadata |
| VaultClients.BatchTorn | secure_core/src/lib.rs:106-118 | where a batch fails, that block holds old bytes and new ones as far as they landed |
| VaultClients.BatchRoundTrip | secure_core/src/lib.rs:94-118 | reading back as many blocks as were written returns exactly that prefix of the data |
| VaultClients.CanariesReserved | secure_core/src/lib.rs:147-160 | after initialisation blocks 994 to 999 are taken; no later run without a free hands one out exactly when its bit is on disk, and one done rewrite at or after its own reservation puts it there |
| VaultClients.CanariesTwice | secure_core/src/lib.rs:147-160 | a second initialisation, after any run that frees none of the six blocks and reopens only if their bits were on disk, leaves allocation and free count |
| VaultClients.InitCanaryCode | secure_core/src/lib.rs:147-160 | initialisation returns 0 exactly when blocks 995 to 999 exist and all five were written, and 2 otherwise, whatever became of the reservations |
| VaultClients.ValidateIff | secure_core/src/lib.rs:135-145 | validation returns 0 exactly when every canary can be read and begins with its name, and 2 otherwise |
| VaultClients.CanariesValidate | secure_core/src/lib.rs:135-160 | if initialisation returned 0 and nobody writes 995 to 999, validation returns 0 after any run |
| VaultClients.CanariesWork | secure_core/src/lib.rs:135-160 | on a vault that has the blocks, with working writes, initialisation returns 0 and validation then does after any run that leaves 995 to 999 alone |
| VaultClients.IgnoredErrorLosesReservation | secure_core/src/lib.rs:150 | if the ignored errors lost the reservations, some run hands a reserved block out |
| VaultClients.StampSurvives | secure_core/src/init_module.rs:134-146 | a persisted identity stamp is read back after any run that does not write its block |
| VaultClients.ReadStampIff | secure_core/src/init_module.rs:141-146 | the stamp is what the first 32 bytes of block 994 open to, and there is none exactly when that block cannot be read |
| DiskWipe.Overwrite | secure_core/src/disk_wipe.rs:65-74 | one pass succeeds exactly when every chunk was written and then has replaced every byte; it stops at the first failed chunk with the front replaced and the rest beyond it untouched |
| DiskWipe.Purge | secure_core/src/disk_wipe.rs:43-102 | which outcome occurs exactly when, and what each leaves: success an empty file whose bytes were all zero; once the first pass is through no failure leaves an old byte |
| DiskWipe.PurgeThenOpen | secure_core/src/virtual_volume.rs:184-200 | opening what a purge left: a container cut off opens as n free blocks and, past the superblock, only zero bytes; one zeroed but not cut off does not open |
| ClockAlign.SortSorts | secure_core/src/clock_align.rs:86-90 | sorting yields an ascending permutation |
| ClockAlign.MedianOfMultiset | secure_core/src/clock_align.rs:93-104 | the median depends only on the multiset of samples |
| ClockAlign.MedianMajority | secure_core/src/clock_align.rs:93-104 | the median lies in any interval that holds a strict majority of the samples, whatever the others are; an even number of samples needs an interval within 62 bits or one that holds all of 62 bits |
| ClockAlign.MajorityIff | secure_core/src/clock_align.rs:93-104 | for an even number of samples the majority law holds for an interval exactly when it lies within 62 bits or holds all of them |
| ClockAlign.MedianIsMean | secure_core/src/clock_align.rs:93-104 | an even number of samples has as median the mean of the middle two rounded toward zero, or that of the wrapped sum where it does not fit |
| ClockAlign.MedianBetweenIff | secure_core/src/clock_align.rs:93-104 | an even number of samples has its median between the middle two exactly when their sum does not wrap |
| ClockAlign.DeltaModulo | secure_core/src/clock_align.rs:130 | a delta is the difference of the counters modulo 2^64 |
| ClockAlign.DeltaSwapped | secure_core/src/clock_align.rs:130 | exchanging the counters negates a delta exactly when it is not -2^63 |
| ClockAlign.MedianAntisymmetricIff | secure_core/src/clock_align.rs:93-104 | exchanging the two clocks negates the estimate exactly when the number of samples is odd or zero or the middle two do not sum to 2^63 or -2^63 |
| ClockAlign.NoOverflow | secure_core/src/clock_align.rs:130 | counters below 2^62 wrap neither in the subtraction nor in the sum of two deltas |
| ClockAlign.SkewRingBuffer.Push | secure_core/src/clock_align.rs:77-83 | the ring holds the last sixteen deltas, rotated |
| ClockAlign.SkewRingBuffer.MedianNow | secure_core/src/clock_align.rs:93-104 | the median of the slots is that of the most recent deltas |
| ClockAlign.Estimator.RecordCounterObservation | secure_core/src/clock_align.rs:129-139 | after any observations the stored skew is the median of the last min(n, 16) deltas |
| TailPadding.AddTailPadding | secure_core/src/tail_padding.rs:16-29 | payload, noise and trailer; the result strips to the payload |
| TailPadding.StripAdd | secure_core/src/tail_padding.rs:16-40 | stripping undoes padding for every payload and draw |
| TailPadding.StripAcceptsExactly | secure_core/src/tail_padding.rs:32-40 | stripping accepts exactly the strings padding can produce and returns their payload |

## Left out

- Converges: covers guarded runs; `StayTogetherIff` and `GuardMeans` say what the others do.
- Resynchronise: needs room for one more epoch and one more message below the 32-bit and 64-bit limits.
- GuardMeans: needs room for two more epochs below the 32-bit limit, and so does `RollNeedsNoPending`.
- Open: creation is modelled with working I/O; a container torn while it is being created is not.
- MedianAntisymmetricIff: samples of -2^63, which have no negation, are left out.
- Ciphers, hashes and the KEM themselves, and probabilities of forgery or collision.
- Concurrency inside one public call of the vault, whose calls share one lock, and of calls other than those in `Interleaving.dfy` and the recovery loop.
- Reads of blocks never written or torn: only that they leave other blocks alone.
- `write_block_raw`, `read_block_raw` and `register_touch`: unused by the kernel or stubs.
- The C interface: raw pointers, native buffers and null checks.
- The digest that makes up the identity stamp; its block is modelled.
- Zeroisation, process exit, timestamps of the vault file and when data is flushed.
- The constant-flow sender: a timer, a callback and random packets.
- The replay window, which the kernel leaves to its caller.
