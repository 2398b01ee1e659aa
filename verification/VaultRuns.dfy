/**
 Every run of vault operations, with writes that may fail or be torn and the container closed or
 lost and reopened at any point: what always holds, and the abstract store the vault refines.
 */
module VaultRuns {
  import opened Bytes
  import opened Bitmap
  import opened Storage
  import opened Vault
  import Superblock
  import Folds

  /** A crash is an operation whose write failed, followed by a reopen. */
  datatype Op =
    | Alloc(io: Io)
    | Hold(b: u64, io: Io)
    | Drop(b: u64, io: Io)
    | Put(b: u64, p: Payload, n: Nonce, io: Io)
    | Reopen(blocks: Blocks)

  /** A number of blocks that may be asked for when opening or creating. */
  type Blocks = n: nat | n <= MAX_DATA_BLOCKS

  /** The key, the cipher and the law it obeys. */
  datatype Env = Env(c: Cipher, key: Key)
  ghost predicate IsEnv(e: Env) { Lawful(e.c) }

  ghost function Step(e: Env, v: Vol, op: Op): (r: (Vol, Result<u64>))
    requires IsEnv(e) && Shaped(v)
    ensures op.Reopen? || (Shaped(r.0) && r.0.total == v.total)
  {
    match op
    case Alloc(io) => Allocate(v, io)
    case Hold(b, io) => var (w, r) := Reserve(v, b, io); (w, if r.Ok? then Ok(b) else Err(r.error))
    case Drop(b, io) => var (w, r) := FreeBlock(v, b, io); (w, if r.Ok? then Ok(b) else Err(r.error))
    case Put(b, p, n, io) =>
      OpenSeal(e.c, e.key, b, p, n);
      var (w, r) := WriteBlock(e.c, e.key, v, b, p, n, io);
      (w, if r.Ok? then Ok(b) else Err(r.error))
    case Reopen(blocks) =>
      var r := OpenOrCreate(e.c, e.key, Some(v.disk), blocks);
      if r.Ok? then (r.value, Ok(0)) else (v, Err(r.error))
  }

  // ---- the invariant -------------------------------------------------------------------

  /** The superblock on disk names this container and this key. */
  ghost predicate Stamped(e: Env, v: Vol)
    requires Shaped(v)
  {
    var info := Superblock.Read(v.disk[..BLOCK_SIZE]);
    info.Some? && info.value.total == v.total && info.value.keyHash == e.c.hash(e.key)
  }

  /** Holds in every reachable state, whatever failed on the way. */
  ghost predicate Good(e: Env, v: Vol) {
    && Shaped(v) && Stamped(e, v)
    && v.free == FreeCount(v.bitmap, DataBlocks(v))
    && ClearFrom(v.bitmap, DataBlocks(v)) && ClearFrom(DiskMap(v), DataBlocks(v))
  }

  /** The bitmap on disk is the one in memory; true until a persist fails. */
  predicate Synced(v: Vol)
    requires Shaped(v)
  {
    DiskMap(v) == v.bitmap
  }

  /** Rewriting the bitmap touches neither the superblock nor any data block. */
  lemma PersistFrame(v: Vol, io: Io)
    requires Shaped(v)
    ensures var w := Persist(v, io);
            && w.disk[..BLOCK_SIZE] == v.disk[..BLOCK_SIZE]
            && w.disk[DATA_OFF..] == v.disk[DATA_OFF..]
            && DiskMap(w) == Torn(DiskMap(v), v.bitmap, io)
            && (io.Done? ==> Synced(w))
  {
    LandFrame(v.disk, BITMAP_OFF, v.bitmap, io, 0, BLOCK_SIZE);
    LandFrame(v.disk, BITMAP_OFF, v.bitmap, io, DATA_OFF, |v.disk|);
    LandIsTorn(v.disk, BITMAP_OFF, v.bitmap, io);
    if io.Done? { LandReads(v.disk, BITMAP_OFF, v.bitmap); }
  }

  lemma RawInData(v: Vol, b: nat)
    requires Shaped(v) && InRange(v, b)
    ensures RawBlock(v, b) == v.disk[DATA_OFF..][b * BLOCK_SIZE - DATA_OFF..(b + 1) * BLOCK_SIZE - DATA_OFF]
  {
  }

  /** A torn bitmap is clear wherever both of its sources are. */
  lemma TornClear(before: Map, after: Map, io: Io, n: nat)
    requires ClearFrom(before, n) && ClearFrom(after, n)
    ensures ClearFrom(Torn(before, after, io), n)
  {
    forall i: nat | n <= i < MAX_DATA_BLOCKS ensures !IsSet(Torn(before, after, io), i) {
      assert !IsSet(before, i) && !IsSet(after, i);
    }
  }

  /** What is common to taking and releasing a block. */
  lemma GoodPersist(e: Env, v: Vol, m: Map, free: u64, io: Io)
    requires IsEnv(e) && Good(e, v)
    requires free == FreeCount(m, DataBlocks(v)) && ClearFrom(m, DataBlocks(v))
    ensures Good(e, Persist(v.(bitmap := m, free := free), io))
  {
    hide Lawful, Land, FreeCount;
    var u := v.(bitmap := m, free := free);
    PersistFrame(u, io);
    assert DiskMap(u) == DiskMap(v);
    TornClear(DiskMap(v), m, io, DataBlocks(v));
  }

  lemma GoodTake(e: Env, v: Vol, i: nat, io: Io)
    requires IsEnv(e) && Good(e, v) && i < DataBlocks(v) && !IsSet(v.bitmap, i)
    ensures Good(e, Take(v, i, io)) && v.free > 0 && Take(v, i, io).free == v.free - 1
  {
    var n := DataBlocks(v);
    FreeCountSet(v.bitmap, i, n);
    forall j: nat | n <= j < MAX_DATA_BLOCKS ensures !IsSet(SetBit(v.bitmap, i), j) {
      SetBitIsSet(v.bitmap, i, j);
    }
    GoodPersist(e, v, SetBit(v.bitmap, i), Decrement(v.free), io);
  }

  lemma GoodRelease(e: Env, v: Vol, i: nat, io: Io)
    requires IsEnv(e) && Good(e, v) && i < DataBlocks(v) && IsSet(v.bitmap, i)
    ensures Good(e, Release(v, i, io)) && Release(v, i, io).free == v.free + 1
  {
    var n := DataBlocks(v);
    FreeCountClear(v.bitmap, i, n);
    forall j: nat | n <= j < MAX_DATA_BLOCKS ensures !IsSet(ClearBit(v.bitmap, i), j) {
      ClearBitIsSet(v.bitmap, i, j);
    }
    GoodPersist(e, v, ClearBit(v.bitmap, i), Increment(v.free), io);
  }

  /** A data write touches no metadata and no other block, whatever landed. */
  lemma PutFrame(e: Env, v: Vol, b: u64, p: Payload, n: Nonce, io: Io)
    requires IsEnv(e) && Shaped(v) && InRange(v, b)
    ensures |SealBlock(e.c, e.key, b, p, n)| == BLOCK_SIZE
    ensures var w := WriteBlock(e.c, e.key, v, b, p, n, io).0;
            && Shaped(w) && w == v.(disk := w.disk)
            && w.disk[..DATA_OFF] == v.disk[..DATA_OFF]
            && (forall b': nat :: InRange(v, b') && b' != b ==> RawBlock(w, b') == RawBlock(v, b'))
            && RawBlock(w, b) == Torn(RawBlock(v, b), SealBlock(e.c, e.key, b, p, n), io)
            && (io.Done? ==> RawBlock(w, b) == SealBlock(e.c, e.key, b, p, n))
  {
    OpenSeal(e.c, e.key, b, p, n);
    var raw := SealBlock(e.c, e.key, b, p, n);
    LandFrame(v.disk, b * BLOCK_SIZE, raw, io, 0, DATA_OFF);
    forall b': nat | InRange(v, b') && b' != b
      ensures Land(v.disk, b * BLOCK_SIZE, raw, io)[b' * BLOCK_SIZE..(b' + 1) * BLOCK_SIZE]
           == v.disk[b' * BLOCK_SIZE..(b' + 1) * BLOCK_SIZE]
    {
      LandFrame(v.disk, b * BLOCK_SIZE, raw, io, b' * BLOCK_SIZE, (b' + 1) * BLOCK_SIZE);
    }
    LandIsTorn(v.disk, b * BLOCK_SIZE, raw, io);
    if io.Done? { LandReads(v.disk, b * BLOCK_SIZE, raw); }
  }

  /** Metadata that is left alone stays good. */
  lemma SameHead(e: Env, v: Vol, w: Vol)
    requires Good(e, v) && Shaped(w) && w == v.(disk := w.disk)
    requires w.disk[..DATA_OFF] == v.disk[..DATA_OFF]
    ensures Good(e, w) && DiskMap(w) == DiskMap(v)
  {
    assert w.disk[..BLOCK_SIZE] == w.disk[..DATA_OFF][..BLOCK_SIZE];
    assert v.disk[..BLOCK_SIZE] == v.disk[..DATA_OFF][..BLOCK_SIZE];
    assert w.disk[BITMAP_OFF..DATA_OFF] == w.disk[..DATA_OFF][BITMAP_OFF..];
    assert v.disk[BITMAP_OFF..DATA_OFF] == v.disk[..DATA_OFF][BITMAP_OFF..];
  }

  /**
   Reopening a good container succeeds whatever number of blocks is asked for, keeps the file, and
   recounts from the bitmap on disk.
   */
  lemma GoodReopen(e: Env, v: Vol, blocks: Blocks)
    requires IsEnv(e) && Good(e, v)
    ensures OpenOrCreate(e.c, e.key, Some(v.disk), blocks) ==
            Ok(Vol(v.disk, v.total, FreeCount(DiskMap(v), DataBlocks(v)), DiskMap(v)))
    ensures Good(e, Step(e, v, Reopen(blocks)).0) && Synced(Step(e, v, Reopen(blocks)).0)
  {
    assert v.disk != [];
  }

  /** Another key opens a good container exactly when it has the same hash. */
  lemma WrongKeyRejected(e: Env, v: Vol, key: Key, blocks: Blocks)
    requires IsEnv(e) && Good(e, v)
    ensures if e.c.hash(key) == e.c.hash(e.key) then OpenOrCreate(e.c, key, Some(v.disk), blocks).Ok?
            else OpenOrCreate(e.c, key, Some(v.disk), blocks) == Err(WrongKey)
  {
    assert v.disk != [];
  }

  lemma GoodAlloc(e: Env, v: Vol, io: Io)
    requires IsEnv(e) && Good(e, v)
    ensures Good(e, Allocate(v, io).0)
  {
    var r := FirstFree(v.bitmap, 0, DataBlocks(v));
    if v.free != 0 && r.Some? { GoodTake(e, v, r.value, io); }
  }

  lemma GoodHold(e: Env, v: Vol, b: u64, io: Io)
    requires IsEnv(e) && Good(e, v)
    ensures Good(e, Reserve(v, b, io).0)
  {
    if InRange(v, b) && !IsSet(v.bitmap, b - DATA_START) { GoodTake(e, v, b - DATA_START, io); }
  }

  lemma GoodDrop(e: Env, v: Vol, b: u64, io: Io)
    requires IsEnv(e) && Good(e, v)
    ensures Good(e, FreeBlock(v, b, io).0)
  {
    if InRange(v, b) && IsSet(v.bitmap, b - DATA_START) { GoodRelease(e, v, b - DATA_START, io); }
  }

  lemma GoodPut(e: Env, v: Vol, b: u64, p: Payload, n: Nonce, io: Io)
    requires IsEnv(e) && Good(e, v)
    ensures var w := Step(e, v, Put(b, p, n, io)).0; Good(e, w) && w.bitmap == v.bitmap && DiskMap(w) == DiskMap(v)
  {
    if InRange(v, b) {
      PutFrame(e, v, b, p, n, io);
      SameHead(e, v, WriteBlock(e.c, e.key, v, b, p, n, io).0);
    }
  }

  lemma GoodStep(e: Env, v: Vol, op: Op)
    requires IsEnv(e) && Good(e, v)
    ensures Good(e, Step(e, v, op).0) && Step(e, v, op).0.total == v.total
  {
    match op {
      case Alloc(io) => GoodAlloc(e, v, io);
      case Hold(b, io) => GoodHold(e, v, b, io);
      case Drop(b, io) => GoodDrop(e, v, b, io);
      case Put(b, p, n, io) => GoodPut(e, v, b, p, n, io);
      case Reopen(blocks) => GoodReopen(e, v, blocks);
    }
  }

  /** A new container is good, synced and wholly free. */
  lemma GoodCreate(e: Env, n: nat)
    requires IsEnv(e) && n <= MAX_DATA_BLOCKS
    ensures Good(e, CreateNew(e.c, e.key, n)) && Synced(CreateNew(e.c, e.key, n))
    ensures CreateNew(e.c, e.key, n).free == n
  {
    hide Lawful, Superblock.Read, Superblock.Write;
    var v := CreateNew(e.c, e.key, n);
    CreatedHead(e, n);
    Superblock.ReadWrite(Superblock.Info(Superblock.VAULT_VERSION, v.total, n, e.c.hash(e.key)));
    EmptyIsClear(n);
    ClearWeaken(Empty(), n);
  }

  lemma CreatedHead(e: Env, n: nat)
    requires n <= MAX_DATA_BLOCKS
    ensures var v := CreateNew(e.c, e.key, n);
            var info := Superblock.Info(Superblock.VAULT_VERSION, v.total, n, e.c.hash(e.key));
            && v.disk[..BLOCK_SIZE] == Superblock.Write(info) && DiskMap(v) == Empty()
            && v.disk[DATA_OFF..] == Superblock.Zeros(n * BLOCK_SIZE)
  {
    var v := CreateNew(e.c, e.key, n);
    var image := Superblock.Write(Superblock.Info(Superblock.VAULT_VERSION, v.total, n, e.c.hash(e.key)));
    var blank := Superblock.Zeros(v.total * BLOCK_SIZE);
    var first := Land(blank, 0, image, Done);
    LandReads(blank, 0, image);
    LandFrame(first, BITMAP_OFF, Empty(), Done, 0, BLOCK_SIZE);
    LandReads(first, BITMAP_OFF, Empty());
    assert v.disk[..BLOCK_SIZE] == image;
    assert v.disk[DATA_OFF..] == Superblock.Zeros(n * BLOCK_SIZE);
  }

  lemma ClearWeaken(m: Map, n: nat)
    requires ClearFrom(m, 0)
    ensures ClearFrom(m, n)
  {
  }

  ghost function Next(e: Env): (Vol, Op) -> Vol {
    (v: Vol, op: Op) => if IsEnv(e) && Shaped(v) then Step(e, v, op).0 else v
  }

  lemma {:induction false} GoodFold(e: Env, v: Vol, ops: seq<Op>)
    requires IsEnv(e) && Good(e, v)
    ensures var w := Folds.Fold(Next(e), v, ops); Good(e, w) && w.total == v.total
    decreases |ops|
  {
    if ops != [] {
      GoodFold(e, v, ops[..|ops| - 1]);
      GoodStep(e, Folds.Fold(Next(e), v, ops[..|ops| - 1]), ops[|ops| - 1]);
    }
  }

  /** The state after a run. */
  ghost function RunFrom(e: Env, v: Vol, ops: seq<Op>): (w: Vol)
    requires IsEnv(e) && Good(e, v)
    ensures Good(e, w) && w.total == v.total
  {
    GoodFold(e, v, ops);
    Folds.Fold(Next(e), v, ops)
  }

  lemma RunLast(e: Env, v: Vol, ops: seq<Op>)
    requires IsEnv(e) && Good(e, v) && ops != []
    ensures RunFrom(e, v, ops) == Step(e, RunFrom(e, v, ops[..|ops| - 1]), ops[|ops| - 1]).0
  {
  }

  lemma RunSnoc(e: Env, v: Vol, front: seq<Op>, op: Op)
    requires IsEnv(e) && Good(e, v)
    ensures RunFrom(e, v, front + [op]) == Step(e, RunFrom(e, v, front), op).0
  {
    assert (front + [op])[..|front|] == front;
    RunLast(e, v, front + [op]);
  }

  /** What the first part of a run leaves, the rest starts from. */
  lemma RunAppend(e: Env, v: Vol, a: seq<Op>, b: seq<Op>)
    requires IsEnv(e) && Good(e, v)
    ensures RunFrom(e, v, a + b) == RunFrom(e, RunFrom(e, v, a), b)
  {
    Folds.FoldAppend(Next(e), v, a, b);
  }

  /** The state after any run on a fresh container of n data blocks. */
  ghost function Reached(e: Env, n: nat, ops: seq<Op>): (w: Vol)
    requires IsEnv(e) && n <= MAX_DATA_BLOCKS
    ensures Good(e, w) && w.total == DATA_START + n
  {
    GoodCreate(e, n);
    RunFrom(e, CreateNew(e.c, e.key, n), ops)
  }

  // ---- the allocator -------------------------------------------------------------------

  /** What an allocation from a good state does. */
  ghost predicate AllocatesLeast(v: Vol, n: nat, io: Io, w: Vol, r: Result<u64>)
    requires n <= MAX_DATA_BLOCKS
  {
    if forall i :: 0 <= i < n ==> IsSet(v.bitmap, i) then
      w == v && r == Err(StorageFull)
    else
      exists i: nat :: i < n && TakesLeast(v, n, i, w) && r == if io.Done? then Ok(DATA_START + i) else Err(IoError)
  }

  ghost predicate TakesLeast(v: Vol, n: nat, i: nat, w: Vol)
    requires i < n <= MAX_DATA_BLOCKS
  {
    && !IsSet(v.bitmap, i) && (forall j :: 0 <= j < i ==> IsSet(v.bitmap, j))
    && Allocated(w.bitmap, n) == Allocated(v.bitmap, n) + {i}
    && w.free == v.free - 1
  }

  lemma AllocateGood(e: Env, v: Vol, io: Io)
    requires IsEnv(e) && Good(e, v)
    ensures var (w, r) := Allocate(v, io); AllocatesLeast(v, DataBlocks(v), io, w, r)
  {
    var n := DataBlocks(v);
    CountedMeansFound(v.bitmap, n);
    var f := FirstFree(v.bitmap, 0, n);
    if f.Some? {
      GoodTake(e, v, f.value, io);
      AllocatedSet(v.bitmap, f.value, n);
      assert TakesLeast(v, n, f.value, Take(v, f.value, io));
      assert !IsSet(v.bitmap, f.value);
    }
  }

  /**
   In every reachable state, including after failed persists, the count is the number of free
   blocks and no bit past the end is set. An allocation fails for want of space exactly when every
   block is taken; otherwise it takes the least free block and lowers the count without underflow.
   It never reports an inconsistent bitmap.
   */
  lemma AllocatorSound(e: Env, n: nat, ops: seq<Op>, io: Io)
    requires IsEnv(e) && n <= MAX_DATA_BLOCKS
    ensures var v := Reached(e, n, ops);
            var (w, r) := Allocate(v, io);
            && v.free == n - |Allocated(v.bitmap, n)| && ClearFrom(v.bitmap, n)
            && AllocatesLeast(v, n, io, w, r) && r != Err(Inconsistent)
  {
    var v := Reached(e, n, ops);
    FreeCountIsComplement(v.bitmap, n);
    AllocateGood(e, v, io);
  }

  /** In a good state, reserving a free block lowers the count by one and never underflows. */
  lemma ReserveMoves(e: Env, v: Vol, b: u64, io: Io)
    requires IsEnv(e) && Good(e, v) && InRange(v, b)
    ensures Reserve(v, b, io).0.free == v.free - (if IsSet(v.bitmap, b - DATA_START) then 0 else 1)
  {
    if !IsSet(v.bitmap, b - DATA_START) { GoodTake(e, v, b - DATA_START, io); }
  }

  lemma FreeMoves(e: Env, v: Vol, b: u64, io: Io)
    requires IsEnv(e) && Good(e, v) && InRange(v, b)
    ensures FreeBlock(v, b, io).0.free == v.free + (if IsSet(v.bitmap, b - DATA_START) then 1 else 0)
  {
    if IsSet(v.bitmap, b - DATA_START) { GoodRelease(e, v, b - DATA_START, io); }
  }

  // ---- crash atomicity -----------------------------------------------------------------

  lemma SetBitOneByte(m: Map, i: nat)
    requires i < MAX_DATA_BLOCKS
    ensures OneByteApart(m, SetBit(m, i)) && OneByteApart(m, ClearBit(m, i))
  {
  }

  /** No operation changes more than one byte of the bitmap in memory. */
  lemma StepOneByte(e: Env, v: Vol, op: Op)
    requires IsEnv(e) && Good(e, v) && !op.Reopen?
    ensures OneByteApart(v.bitmap, Step(e, v, op).0.bitmap)
  {
    match op {
      case Alloc(_) =>
        var r := FirstFree(v.bitmap, 0, DataBlocks(v));
        if r.Some? { SetBitOneByte(v.bitmap, r.value); }
      case Hold(b, _) => if InRange(v, b) { SetBitOneByte(v.bitmap, b - DATA_START); }
      case Drop(b, _) => if InRange(v, b) { SetBitOneByte(v.bitmap, b - DATA_START); }
      case Put(b, p, n, io) => GoodPut(e, v, b, p, n, io);
    }
  }

  /** An operation either leaves the bitmap alone, in memory and on disk, or rewrites it. */
  lemma StepPersists(e: Env, v: Vol, op: Op)
    requires IsEnv(e) && Good(e, v) && !op.Reopen?
    ensures var w := Step(e, v, op).0;
            && Shaped(w)
            && (|| (w.bitmap == v.bitmap && DiskMap(w) == DiskMap(v))
                || (!op.Put? && DiskMap(w) == Torn(DiskMap(v), w.bitmap, op.io)))
  {
    var w := Step(e, v, op).0;
    if op.Put? {
      GoodPut(e, v, op.b, op.p, op.n, op.io);
    } else if w != v {
      var u := v.(bitmap := w.bitmap, free := w.free);
      assert w == Persist(u, op.io);
      PersistFrame(u, op.io);
      assert DiskMap(u) == DiskMap(v);
    }
  }

  /** From a synced state a torn rewrite leaves the bitmap from before or after the operation. */
  lemma CrashMap(e: Env, v: Vol, op: Op)
    requires IsEnv(e) && Good(e, v) && Synced(v) && !op.Reopen?
    ensures var w := Step(e, v, op).0;
            Shaped(w) && (DiskMap(w) == v.bitmap || DiskMap(w) == w.bitmap) && (op.io.Done? ==> DiskMap(w) == w.bitmap)
  {
    var w := Step(e, v, op).0;
    StepOneByte(e, v, op);
    StepPersists(e, v, op);
    WholeAt(v.bitmap, w.bitmap, op.io);
    if op.io.Done? { assert Torn(v.bitmap, w.bitmap, op.io) == w.bitmap; }
  }

  /** The volume one gets by reopening w's file. */
  ghost predicate RecoversAs(e: Env, w: Vol, m: Map)
    requires Shaped(w)
  {
    forall blocks: Blocks ::
      OpenOrCreate(e.c, e.key, Some(w.disk), blocks) == Ok(Vol(w.disk, w.total, FreeCount(m, DataBlocks(w)), m))
  }

  /**
   Crash atomicity. If memory and disk agreed before, then however an operation's write is torn,
   reopening succeeds and finds exactly the bitmap from before or after it, with the matching free
   count; and a write that was done is found.
   */
  lemma CrashAtomic(e: Env, v: Vol, op: Op)
    requires IsEnv(e) && Good(e, v) && Synced(v) && !op.Reopen?
    ensures var w := Step(e, v, op).0;
            && Shaped(w) && (RecoversAs(e, w, v.bitmap) || RecoversAs(e, w, w.bitmap))
            && (op.io.Done? ==> RecoversAs(e, w, w.bitmap))
  {
    GoodStep(e, v, op);
    CrashMap(e, v, op);
    forall blocks: Blocks { GoodReopen(e, Step(e, v, op).0, blocks); }
  }

  /** Every bitmap rewrite of the run was done; data writes may have failed. */
  predicate PersistsDone(ops: seq<Op>) {
    forall i :: 0 <= i < |ops| ==> ops[i].Reopen? || ops[i].Put? || ops[i].io.Done?
  }

  lemma {:induction false} SyncedRun(e: Env, v: Vol, ops: seq<Op>)
    requires IsEnv(e) && Good(e, v) && Synced(v) && PersistsDone(ops)
    ensures Synced(RunFrom(e, v, ops))
  {
    if ops != [] {
      var front, op := ops[..|ops| - 1], ops[|ops| - 1];
      assert PersistsDone(front);
      SyncedRun(e, v, front);
      var u := RunFrom(e, v, front);
      RunLast(e, v, ops);
      if op.Reopen? {
        GoodReopen(e, u, op.blocks);
      } else {
        StepPersists(e, u, op);
      }
    }
  }

  /** Crash atomicity at the end of every run whose bitmap rewrites were all done. */
  lemma CrashAtomicRun(e: Env, n: nat, ops: seq<Op>, op: Op)
    requires IsEnv(e) && n <= MAX_DATA_BLOCKS && PersistsDone(ops) && !op.Reopen?
    ensures var v := Reached(e, n, ops);
            var w := Step(e, v, op).0;
            && Shaped(w) && (RecoversAs(e, w, v.bitmap) || RecoversAs(e, w, w.bitmap))
            && (op.io.Done? ==> RecoversAs(e, w, w.bitmap))
  {
    GoodCreate(e, n);
    SyncedRun(e, CreateNew(e.c, e.key, n), ops);
    CrashAtomic(e, Reached(e, n, ops), op);
  }

  /**
   Without that proviso: from any state, every tear of a bitmap rewrite leaves the old or the new
   bitmap on disk exactly when the two differ in at most one byte.
   */
  lemma PersistAtomicIff(v: Vol)
    requires Shaped(v)
    ensures (forall io: Io :: DiskMap(Persist(v, io)) == DiskMap(v) || DiskMap(Persist(v, io)) == v.bitmap)
            <==> OneByteApart(DiskMap(v), v.bitmap)
  {
    forall io: Io ensures DiskMap(Persist(v, io)) == Torn(DiskMap(v), v.bitmap, io) {
      PersistFrame(v, io);
    }
    AtomicIffOneByte(DiskMap(v), v.bitmap);
    if AlwaysWhole(DiskMap(v), v.bitmap) {
      forall io: Io ensures DiskMap(Persist(v, io)) == DiskMap(v) || DiskMap(Persist(v, io)) == v.bitmap {
        assert Torn(DiskMap(v), v.bitmap, io) == DiskMap(v) || Torn(DiskMap(v), v.bitmap, io) == v.bitmap;
      }
    } else {
      var io: Io :| !(Torn(DiskMap(v), v.bitmap, io) == DiskMap(v) || Torn(DiskMap(v), v.bitmap, io) == v.bitmap);
      assert DiskMap(Persist(v, io)) == Torn(DiskMap(v), v.bitmap, io);
    }
  }

  /** For an allocation or reservation of block i, and for its release. */
  lemma TakeAndReleaseAtomicIff(v: Vol, i: nat)
    requires Shaped(v) && i < DataBlocks(v)
    ensures (forall io: Io :: DiskMap(Take(v, i, io)) == DiskMap(v) || DiskMap(Take(v, i, io)) == SetBit(v.bitmap, i))
            <==> OneByteApart(DiskMap(v), SetBit(v.bitmap, i))
    ensures (forall io: Io :: DiskMap(Release(v, i, io)) == DiskMap(v) || DiskMap(Release(v, i, io)) == ClearBit(v.bitmap, i))
            <==> OneByteApart(DiskMap(v), ClearBit(v.bitmap, i))
  {
    var t := v.(bitmap := SetBit(v.bitmap, i), free := Decrement(v.free));
    var u := v.(bitmap := ClearBit(v.bitmap, i), free := Increment(v.free));
    assert forall io: Io :: Take(v, i, io) == Persist(t, io) && Release(v, i, io) == Persist(u, io);
    PersistAtomicIff(t);
    PersistAtomicIff(u);
  }

  /** After one persist that wrote nothing, taking a block in another byte is no longer atomic. */
  lemma FailedPersistBreaksAtomicity(e: Env, v: Vol, i: nat, j: nat)
    requires IsEnv(e) && Good(e, v) && Synced(v) && i < DataBlocks(v) && j < DataBlocks(v)
    requires !IsSet(v.bitmap, i) && !IsSet(v.bitmap, j) && i / 8 != j / 8
    ensures var w := Take(v, i, Failed({}));
            exists io: Io :: DiskMap(Take(w, j, io)) != DiskMap(w) && DiskMap(Take(w, j, io)) != SetBit(w.bitmap, j)
  {
    var w := Take(v, i, Failed({}));
    PersistFrame(v.(bitmap := SetBit(v.bitmap, i), free := Decrement(v.free)), Failed({}));
    assert DiskMap(w) == v.bitmap;
    var after := SetBit(w.bitmap, j);
    SetBitIsSet(v.bitmap, i, i);
    SetBitIsSet(v.bitmap, i, j);
    SetBitIsSet(w.bitmap, j, i);
    SetBitIsSet(w.bitmap, j, j);
    assert DiskMap(w)[i / 8] != after[i / 8] && DiskMap(w)[j / 8] != after[j / 8];
    TakeAndReleaseAtomicIff(w, j);
  }
}
