/**
 Blocks kept out of the allocator's hands. A reservation holds over every later run, with any
 failures and reopens, exactly when its bit is set both in memory and on disk.
 */
module Reserved {
  import opened Bytes
  import opened Bitmap
  import opened Storage
  import opened Vault
  import opened VaultRuns

  /** Operation number i of the run from v handed out block b. */
  ghost predicate HandsOut(e: Env, v: Vol, ops: seq<Op>, i: nat, b: nat)
    requires IsEnv(e) && Good(e, v) && i < |ops|
  {
    ops[i].Alloc? && Step(e, RunFrom(e, v, ops[..i]), ops[i]).1 == Ok(b)
  }

  predicate NoDrop(ops: seq<Op>, b: nat) {
    forall i :: 0 <= i < |ops| ==> !(ops[i].Drop? && ops[i].b == b)
  }

  /** No run without an explicit free of b ever hands b out. */
  ghost predicate NeverHandedOut(e: Env, v: Vol, b: nat)
    requires IsEnv(e) && Good(e, v)
  {
    forall ops: seq<Op>, i: nat :: NoDrop(ops, b) && i < |ops| ==> !HandsOut(e, v, ops, i, b)
  }

  /** The bit of block b is set in memory and on disk. */
  ghost predicate Pinned(v: Vol, b: nat)
    requires Shaped(v) && InRange(v, b)
  {
    IsSet(v.bitmap, b - DATA_START) && IsSet(DiskMap(v), b - DATA_START)
  }

  /** Every operation leaves the bitmap, sets a bit or clears the bit it was asked to free. */
  lemma BitmapStep(e: Env, v: Vol, op: Op) returns (i: nat)
    requires IsEnv(e) && Good(e, v) && !op.Reopen?
    ensures i < MAX_DATA_BLOCKS
    ensures var m := Step(e, v, op).0.bitmap;
            m == v.bitmap || m == SetBit(v.bitmap, i) || (op.Drop? && op.b == i + DATA_START && m == ClearBit(v.bitmap, i))
  {
    i := 0;
    match op {
      case Alloc(_) =>
        var r := FirstFree(v.bitmap, 0, DataBlocks(v));
        if r.Some? { i := r.value; }
      case Hold(c, _) => if InRange(v, c) { i := c - DATA_START; }
      case Drop(c, _) => if InRange(v, c) { i := c - DATA_START; }
      case Put(c, p, n, io) => GoodPut(e, v, c, p, n, io);
    }
  }

  lemma MemoryStep(e: Env, v: Vol, op: Op, b: nat)
    requires IsEnv(e) && Good(e, v) && InRange(v, b) && IsSet(v.bitmap, b - DATA_START)
    requires !op.Reopen? && !(op.Drop? && op.b == b)
    ensures IsSet(Step(e, v, op).0.bitmap, b - DATA_START)
  {
    var i := BitmapStep(e, v, op);
    SetBitIsSet(v.bitmap, i, b - DATA_START);
    ClearBitIsSet(v.bitmap, i, b - DATA_START);
  }

  lemma PinnedStep(e: Env, v: Vol, op: Op, b: nat)
    requires IsEnv(e) && Good(e, v) && InRange(v, b) && Pinned(v, b)
    requires !(op.Drop? && op.b == b)
    ensures var w := Step(e, v, op).0; Shaped(w) && InRange(w, b) && Pinned(w, b)
  {
    GoodStep(e, v, op);
    if op.Reopen? {
      GoodReopen(e, v, op.blocks);
    } else {
      MemoryStep(e, v, op, b);
      StepPersists(e, v, op);
    }
  }

  lemma {:induction false} PinnedRun(e: Env, v: Vol, ops: seq<Op>, b: nat)
    requires IsEnv(e) && Good(e, v) && InRange(v, b) && Pinned(v, b) && NoDrop(ops, b)
    ensures Pinned(RunFrom(e, v, ops), b)
    decreases |ops|
  {
    if ops != [] {
      var front := ops[..|ops| - 1];
      assert NoDrop(front, b);
      PinnedRun(e, v, front, b);
      PinnedStep(e, RunFrom(e, v, front), ops[|ops| - 1], b);
      RunLast(e, v, ops);
    }
  }

  /** A set bit is never handed out. */
  lemma SetNotHandedOut(e: Env, v: Vol, io: Io, b: nat)
    requires IsEnv(e) && Good(e, v) && InRange(v, b) && IsSet(v.bitmap, b - DATA_START)
    ensures Step(e, v, Alloc(io)).1 != Ok(b)
  {
  }

  lemma PinnedNever(e: Env, v: Vol, b: nat)
    requires IsEnv(e) && Good(e, v) && InRange(v, b) && Pinned(v, b)
    ensures NeverHandedOut(e, v, b)
  {
    forall ops: seq<Op>, i: nat | NoDrop(ops, b) && i < |ops| ensures !HandsOut(e, v, ops, i, b) {
      PinnedRun(e, v, ops[..i], b);
      if ops[i].Alloc? { SetNotHandedOut(e, RunFrom(e, v, ops[..i]), ops[i].io, b); }
    }
  }

  // ---- a clear bit is handed out in the end --------------------------------------------

  predicate OnlyAllocs(ops: seq<Op>) {
    forall i :: 0 <= i < |ops| ==> ops[i] == Alloc(Done)
  }

  lemma FreeBelow(m: Map, j: nat, i: nat)
    requires j < i <= MAX_DATA_BLOCKS && !IsSet(m, j)
    ensures FreeCount(SetBit(m, j), i) < FreeCount(m, i)
  {
    FreeCountSet(m, j, i);
  }

  lemma HandsOutAfter(e: Env, v: Vol, a: seq<Op>, rest: seq<Op>, i: nat, b: nat)
    requires IsEnv(e) && Good(e, v) && i < |rest|
    requires HandsOut(e, RunFrom(e, v, a), rest, i, b)
    ensures HandsOut(e, v, a + rest, |a| + i, b)
  {
    hide Lawful, Stamped, ClearFrom, FreeCount, Step, RunFrom;
    RunAppend(e, v, a, rest[..i]);
    assert (a + rest)[..|a| + i] == a + rest[..i] && (a + rest)[|a| + i] == rest[i];
  }

  lemma RunOne(e: Env, v: Vol, op: Op)
    requires IsEnv(e) && Good(e, v)
    ensures RunFrom(e, v, [op]) == Step(e, v, op).0
  {
    RunSnoc(e, v, [], op);
    assert [op] == [] + [op];
  }

  lemma FirstFreeIs(m: Map, k: nat, i: nat, n: nat)
    requires k <= i < n <= MAX_DATA_BLOCKS && !IsSet(m, i)
    ensures FirstFree(m, k, n).Some? && FirstFree(m, k, n).value <= i
  {
  }

  /** The block is handed out at once, or another one below it is. */
  lemma AllocTowards(e: Env, v: Vol, b: nat)
    requires IsEnv(e) && Good(e, v) && InRange(v, b) && !IsSet(v.bitmap, b - DATA_START)
    ensures var (w, r) := Step(e, v, Alloc(Done));
            || r == Ok(b)
            || (!IsSet(w.bitmap, b - DATA_START) && FreeCount(w.bitmap, b - DATA_START) < FreeCount(v.bitmap, b - DATA_START))
  {
    var i, n := b - DATA_START, DataBlocks(v);
    FirstFreeIs(v.bitmap, 0, i, n);
    CountedMeansFound(v.bitmap, n);
    var j := FirstFree(v.bitmap, 0, n).value;
    if j < i {
      SetBitIsSet(v.bitmap, j, i);
      FreeBelow(v.bitmap, j, i);
    }
  }

  lemma HandsOutNow(e: Env, v: Vol, b: nat)
    requires IsEnv(e) && Good(e, v) && Step(e, v, Alloc(Done)).1 == Ok(b)
    ensures HandsOut(e, v, [Alloc(Done)], 0, b)
  {
    assert [Alloc(Done)][..0] == [];
    assert RunFrom(e, v, []) == v;
  }

  /** Allocating again and again reaches every free block. */
  lemma {:induction false} Eventually(e: Env, v: Vol, b: nat) returns (ops: seq<Op>)
    requires IsEnv(e) && Good(e, v) && InRange(v, b) && !IsSet(v.bitmap, b - DATA_START)
    ensures OnlyAllocs(ops) && ops != [] && HandsOut(e, v, ops, |ops| - 1, b)
    decreases FreeCount(v.bitmap, b - DATA_START)
  {
    hide Lawful, Stamped, ClearFrom, Step, RunFrom;
    AllocTowards(e, v, b);
    ops := [Alloc(Done)];
    if Step(e, v, Alloc(Done)).1 == Ok(b) {
      HandsOutNow(e, v, b);
    } else {
      RunOne(e, v, Alloc(Done));
      var w := RunFrom(e, v, ops);
      var rest := Eventually(e, w, b);
      HandsOutAfter(e, v, ops, rest, |rest| - 1, b);
      ops := ops + rest;
    }
  }

  lemma ReopenLoads(e: Env, v: Vol)
    requires IsEnv(e) && Good(e, v)
    ensures RunFrom(e, v, [Reopen(0)]).bitmap == DiskMap(v)
  {
    GoodReopen(e, v, 0);
    RunOne(e, v, Reopen(0));
  }

  lemma AfterReopen(e: Env, v: Vol, b: nat) returns (ops: seq<Op>)
    requires IsEnv(e) && Good(e, v) && InRange(v, b) && !IsSet(DiskMap(v), b - DATA_START)
    ensures NoDrop(ops, b) && ops != [] && HandsOut(e, v, ops, |ops| - 1, b)
  {
    hide Lawful, Stamped, ClearFrom, Step, RunFrom;
    ReopenLoads(e, v);
    ops := [Reopen(0)];
    var w := RunFrom(e, v, ops);
    var rest := Eventually(e, w, b);
    HandsOutAfter(e, v, ops, rest, |rest| - 1, b);
    ops := ops + rest;
  }

  /**
   Reserved blocks. Whatever fails and however often the container is reopened, no run without an
   explicit free of b hands b out: this holds exactly when b's bit is set in memory and on disk.
   */
  lemma ReservedIff(e: Env, v: Vol, b: nat)
    requires IsEnv(e) && Good(e, v) && InRange(v, b)
    ensures NeverHandedOut(e, v, b) <==> Pinned(v, b)
  {
    if Pinned(v, b) {
      PinnedNever(e, v, b);
    } else {
      var ops;
      if !IsSet(v.bitmap, b - DATA_START) {
        ops := Eventually(e, v, b);
      } else {
        ops := AfterReopen(e, v, b);
      }
      assert HandsOut(e, v, ops, |ops| - 1, b);
    }
  }

  /** Until a reopen, the bit in memory is enough. */
  lemma {:induction false} MemoryRun(e: Env, v: Vol, ops: seq<Op>, b: nat)
    requires IsEnv(e) && Good(e, v) && InRange(v, b) && IsSet(v.bitmap, b - DATA_START)
    requires NoDrop(ops, b) && forall i :: 0 <= i < |ops| ==> !ops[i].Reopen?
    ensures IsSet(RunFrom(e, v, ops).bitmap, b - DATA_START)
    decreases |ops|
  {
    if ops != [] {
      var front := ops[..|ops| - 1];
      MemoryRun(e, v, front, b);
      MemoryStep(e, RunFrom(e, v, front), ops[|ops| - 1], b);
      RunLast(e, v, ops);
    }
  }

  lemma HeldWithoutReopen(e: Env, v: Vol, ops: seq<Op>, i: nat, b: nat)
    requires IsEnv(e) && Good(e, v) && InRange(v, b) && IsSet(v.bitmap, b - DATA_START)
    requires NoDrop(ops, b) && forall i :: 0 <= i < |ops| ==> !ops[i].Reopen?
    requires i < |ops|
    ensures !HandsOut(e, v, ops, i, b)
  {
    MemoryRun(e, v, ops[..i], b);
    if ops[i].Alloc? { SetNotHandedOut(e, RunFrom(e, v, ops[..i]), ops[i].io, b); }
  }
}
