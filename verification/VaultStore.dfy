/**
 The abstract store the vault refines: two sets of block indices (allocated in memory, and recorded
 on disk) and a map from block to the payload last written.
 */
module VaultStore {
  import opened Bytes
  import opened Bitmap
  import opened Storage
  import opened Vault
  import opened VaultRuns

  datatype Store = Store(n: nat, alloc: set<nat>, stored: set<nat>, data: map<nat, Payload>)

  /** What a rewrite of the record may leave behind. */
  ghost predicate Recorded(s: Store, alloc: set<nat>, stored: set<nat>, io: Io) {
    && (io.Done? ==> stored == alloc)
    && (s.stored == s.alloc ==> stored == s.stored || stored == alloc)
    && s.stored * alloc <= stored <= s.stored + alloc
  }

  ghost predicate Updates(s: Store, t: Store, alloc: set<nat>, io: Io) {
    t == s.(alloc := alloc, stored := t.stored) && Recorded(s, alloc, t.stored, io)
  }

  ghost predicate IsLeastFree(s: Store, i: nat) {
    i < s.n && i !in s.alloc && forall j: nat :: j < i ==> j in s.alloc
  }

  predicate Has(s: Store, b: nat) {
    DATA_START <= b < DATA_START + s.n
  }

  /** The abstract effect and result of each operation, with nothing said about bytes. */
  ghost predicate Spec(s: Store, op: Op, r: Result<u64>, t: Store) {
    match op
    case Alloc(io) =>
      || ((forall i: nat :: i < s.n ==> i in s.alloc) && t == s && r == Err(StorageFull))
      || (exists i :: IsLeastFree(s, i) && Updates(s, t, s.alloc + {i}, io)
            && r == if io.Done? then Ok(DATA_START + i) else Err(IoError))
    case Hold(b, io) =>
      if !Has(s, b) then t == s && r == Err(InvalidInput)
      else if b - DATA_START in s.alloc then t == s && r == Ok(b)
      else Updates(s, t, s.alloc + {b - DATA_START}, io) && r == if io.Done? then Ok(b) else Err(IoError)
    case Drop(b, io) =>
      if !Has(s, b) then t == s && r == Err(InvalidInput)
      else if b - DATA_START !in s.alloc then t == s && r == Err(AlreadyFree)
      else Updates(s, t, s.alloc - {b - DATA_START}, io) && r == if io.Done? then Ok(b) else Err(IoError)
    case Put(b, p, _, io) =>
      if !Has(s, b) then t == s && r == Err(InvalidInput)
      else if io.Done? then t == s.(data := s.data[b := p]) && r == Ok(b)
      else t == s.(data := s.data - {b}) && r == Err(IoError)
    case Reopen(_) => t == s.(alloc := s.stored) && r == Ok(0)
  }

  /** The volume holds what the store says. */
  ghost predicate Holds(e: Env, v: Vol, s: Store) {
    && Good(e, v) && v.total == DATA_START + s.n
    && s.alloc == Allocated(v.bitmap, s.n) && s.stored == Allocated(DiskMap(v), s.n)
    && forall b: nat :: b in s.data ==> InRange(v, b) && OpenBlock(e.c, e.key, b, RawBlock(v, b)) == Some(s.data[b])
  }

  /** The payloads after an operation. */
  function NextData(s: Store, op: Op): map<nat, Payload> {
    match op
    case Put(b, p, _, io) =>
      if !Has(s, b) then s.data else if io.Done? then s.data[b := p] else s.data - {b}
    case _ => s.data
  }

  ghost function NextStore(s: Store, op: Op, w: Vol): Store
    requires Shaped(w) && s.n <= MAX_DATA_BLOCKS
  {
    Store(s.n, Allocated(w.bitmap, s.n), Allocated(DiskMap(w), s.n), NextData(s, op))
  }

  // ---- the bitmap side -----------------------------------------------------------------

  lemma TornAllocated(before: Map, after: Map, io: Io, n: nat)
    requires n <= MAX_DATA_BLOCKS
    ensures var t := Allocated(Torn(before, after, io), n);
            Allocated(before, n) * Allocated(after, n) <= t <= Allocated(before, n) + Allocated(after, n)
  {
    var torn := Torn(before, after, io);
    forall i: nat | i < n
      ensures i in Allocated(torn, n) ==> i in Allocated(before, n) + Allocated(after, n)
      ensures i in Allocated(before, n) * Allocated(after, n) ==> i in Allocated(torn, n)
    {
      assert torn[i / 8] == before[i / 8] || torn[i / 8] == after[i / 8];
    }
  }

  /** Bitmaps that agree past the end are equal exactly when they allocate the same blocks. */
  lemma SameAllocatedSameMap(a: Map, b: Map, n: nat)
    requires n <= MAX_DATA_BLOCKS && ClearFrom(a, n) && ClearFrom(b, n)
    requires Allocated(a, n) == Allocated(b, n)
    ensures a == b
  {
    forall k | 0 <= k < BITMAP_BYTES ensures a[k] == b[k] {
      forall j: nat | j < 8 ensures Bit(a[k], j) == Bit(b[k], j) {
        var i := 8 * k + j;
        assert i / 8 == k && i % 8 == j;
        assert IsSet(a, i) == IsSet(b, i) by {
          if i < n { assert i in Allocated(a, n) <==> i in Allocated(b, n); }
        }
      }
      SameBits(a[k], b[k], 8);
    }
  }

  lemma {:induction false} SameBits(x: nat, y: nat, w: nat)
    requires x < Shl(w) && y < Shl(w)
    requires forall j: nat :: j < w ==> Bit(x, j) == Bit(y, j)
    ensures x == y
    decreases w
  {
    if w != 0 {
      assert Bit(x, 0) == Bit(y, 0);
      forall j: nat | j < w - 1 ensures Bit(x / 2, j) == Bit(y / 2, j) {
        assert Bit(x, j + 1) == Bit(y, j + 1);
      }
      SameBits(x / 2, y / 2, w - 1);
    }
  }

  lemma RecordedStep(e: Env, v: Vol, s: Store, op: Op)
    requires IsEnv(e) && Holds(e, v, s) && (op.Alloc? || op.Hold? || op.Drop?)
    requires var w := Step(e, v, op).0; w != v
    ensures var w := Step(e, v, op).0;
            Shaped(w) && Recorded(s, Allocated(w.bitmap, s.n), Allocated(DiskMap(w), s.n), op.io)
  {
    hide Lawful, Stamped, FreeCount, Land;
    var w := Step(e, v, op).0;
    StepPersists(e, v, op);
    assert DiskMap(w) == Torn(DiskMap(v), w.bitmap, op.io);
    TornAllocated(DiskMap(v), w.bitmap, op.io, s.n);
    if op.io.Done? { assert Torn(DiskMap(v), w.bitmap, op.io) == w.bitmap; }
    if s.stored == s.alloc {
      SameAllocatedSameMap(DiskMap(v), v.bitmap, s.n);
      CrashMap(e, v, op);
    }
  }

  // ---- the payload side ----------------------------------------------------------------

  /** No operation but a write to b changes the bytes of block b. */
  lemma BlockFrame(e: Env, v: Vol, op: Op, b: nat)
    requires IsEnv(e) && Good(e, v) && InRange(v, b) && !(op.Put? && op.b == b)
    ensures var w := Step(e, v, op).0; Shaped(w) && InRange(w, b) && RawBlock(w, b) == RawBlock(v, b)
  {
    var w := Step(e, v, op).0;
    GoodStep(e, v, op);
    if op.Put? {
      if InRange(v, op.b) { PutFrame(e, v, op.b, op.p, op.n, op.io); }
    } else if op.Reopen? {
      GoodReopen(e, v, op.blocks);
    } else if w != v {
      var u := v.(bitmap := w.bitmap, free := w.free);
      assert w == Persist(u, op.io);
      PersistFrame(u, op.io);
      RawInData(v, b);
      RawInData(w, b);
    }
  }

  /** A write that was done reads back. */
  lemma PutReads(e: Env, v: Vol, b: u64, p: Payload, n: Nonce)
    requires IsEnv(e) && Good(e, v) && InRange(v, b)
    ensures var w := Step(e, v, Put(b, p, n, Done)).0;
            Shaped(w) && InRange(w, b) && OpenBlock(e.c, e.key, b, RawBlock(w, b)) == Some(p)
  {
    PutFrame(e, v, b, p, n, Done);
    OpenSeal(e.c, e.key, b, p, n);
  }

  lemma DataHolds(e: Env, v: Vol, s: Store, op: Op, b: nat)
    requires IsEnv(e) && Holds(e, v, s) && b in NextData(s, op)
    ensures var w := Step(e, v, op).0;
            Shaped(w) && InRange(w, b) && OpenBlock(e.c, e.key, b, RawBlock(w, b)) == Some(NextData(s, op)[b])
  {
    if op.Put? && op.b == b && Has(s, b) {
      PutReads(e, v, op.b, op.p, op.n);
    } else {
      assert b in s.data;
      BlockFrame(e, v, op, b);
    }
  }

  // ---- refinement ----------------------------------------------------------------------

  lemma SameStore(e: Env, v: Vol, s: Store, op: Op)
    requires Holds(e, v, s) && !op.Put?
    ensures NextStore(s, op, v) == s
  {
  }

  /** An operation that changes the bitmap is an update of the store. */
  lemma UpdatesStep(e: Env, v: Vol, s: Store, op: Op, alloc: set<nat>)
    requires IsEnv(e) && Holds(e, v, s) && (op.Alloc? || op.Hold? || op.Drop?)
    requires alloc != s.alloc && Allocated(Step(e, v, op).0.bitmap, s.n) == alloc
    ensures var w := Step(e, v, op).0; Shaped(w) && Updates(s, NextStore(s, op, w), alloc, op.io)
  {
    RecordedStep(e, v, s, op);
  }

  lemma AllocSpec(e: Env, v: Vol, s: Store, io: Io)
    requires IsEnv(e) && Holds(e, v, s)
    ensures var (w, r) := Step(e, v, Alloc(io)); Shaped(w) && Spec(s, Alloc(io), r, NextStore(s, Alloc(io), w))
  {
    hide Lawful, Stamped, ClearFrom, FreeCount, SetBit;
    var (w, r) := Step(e, v, Alloc(io));
    AllocateGood(e, v, io);
    if forall i :: 0 <= i < s.n ==> IsSet(v.bitmap, i) {
      assert forall i: nat :: i < s.n ==> i in s.alloc;
      SameStore(e, v, s, Alloc(io));
    } else {
      var i: nat :| i < s.n && TakesLeast(v, s.n, i, w) && r == if io.Done? then Ok(DATA_START + i) else Err(IoError);
      LeastIsLeast(e, v, s, i, w);
      UpdatesStep(e, v, s, Alloc(io), s.alloc + {i});
    }
  }

  lemma LeastIsLeast(e: Env, v: Vol, s: Store, i: nat, w: Vol)
    requires Holds(e, v, s) && i < s.n && TakesLeast(v, s.n, i, w)
    ensures IsLeastFree(s, i) && Allocated(w.bitmap, s.n) == s.alloc + {i} && s.alloc + {i} != s.alloc
  {
    assert i in s.alloc + {i};
  }

  lemma HoldSpec(e: Env, v: Vol, s: Store, b: u64, io: Io)
    requires IsEnv(e) && Holds(e, v, s)
    ensures var (w, r) := Step(e, v, Hold(b, io)); Shaped(w) && Spec(s, Hold(b, io), r, NextStore(s, Hold(b, io), w))
  {
    hide Lawful, Stamped, FreeCount, Land, ClearFrom, IsSet, SetBit, ClearBit, IsLeastFree;
    if InRange(v, b) && !IsSet(v.bitmap, b - DATA_START) {
      AllocatedSet(v.bitmap, b - DATA_START, s.n);
      assert b - DATA_START in s.alloc + {b - DATA_START};
      UpdatesStep(e, v, s, Hold(b, io), s.alloc + {b - DATA_START});
    } else {
      SameStore(e, v, s, Hold(b, io));
    }
  }

  lemma DropSpec(e: Env, v: Vol, s: Store, b: u64, io: Io)
    requires IsEnv(e) && Holds(e, v, s)
    ensures var (w, r) := Step(e, v, Drop(b, io)); Shaped(w) && Spec(s, Drop(b, io), r, NextStore(s, Drop(b, io), w))
  {
    hide Lawful, Stamped, FreeCount, Land, ClearFrom, IsSet, SetBit, ClearBit, IsLeastFree;
    if InRange(v, b) && IsSet(v.bitmap, b - DATA_START) {
      AllocatedClear(v.bitmap, b - DATA_START, s.n);
      assert b - DATA_START !in s.alloc - {b - DATA_START};
      UpdatesStep(e, v, s, Drop(b, io), s.alloc - {b - DATA_START});
    } else {
      SameStore(e, v, s, Drop(b, io));
    }
  }

  /**
   Refinement. Every operation on the volume, however its write went, is a step of the abstract
   store with the same result.
   */
  lemma Refines(e: Env, v: Vol, s: Store, op: Op)
    requires IsEnv(e) && Holds(e, v, s)
    ensures var (w, r) := Step(e, v, op);
            Shaped(w) && var t := NextStore(s, op, w); Spec(s, op, r, t) && Holds(e, w, t)
  {
    var (w, r) := Step(e, v, op);
    GoodStep(e, v, op);
    var t := NextStore(s, op, w);
    forall b: nat | b in t.data
      ensures InRange(w, b) && OpenBlock(e.c, e.key, b, RawBlock(w, b)) == Some(t.data[b])
    {
      DataHolds(e, v, s, op, b);
    }
    SpecStep(e, v, s, op);
  }

  lemma SpecStep(e: Env, v: Vol, s: Store, op: Op)
    requires IsEnv(e) && Holds(e, v, s)
    ensures var (w, r) := Step(e, v, op); Shaped(w) && Spec(s, op, r, NextStore(s, op, w))
  {
    match op {
      case Alloc(io) => AllocSpec(e, v, s, io);
      case Hold(b, io) => HoldSpec(e, v, s, b, io);
      case Drop(b, io) => DropSpec(e, v, s, b, io);
      case Put(b, p, n, io) => GoodPut(e, v, b, p, n, io);
      case Reopen(blocks) => GoodReopen(e, v, blocks);
    }
  }

  /** A sequence of stores, one per operation, each a step of the specification. */
  ghost predicate Trace(e: Env, v: Vol, ops: seq<Op>, stores: seq<Store>)
    requires IsEnv(e) && Good(e, v)
  {
    && |stores| == |ops| + 1
    && forall i :: 0 <= i < |ops| ==> TraceAt(e, v, ops[..i], ops[i], stores[i], stores[i + 1])
  }

  ghost predicate TraceAt(e: Env, v: Vol, front: seq<Op>, op: Op, s: Store, t: Store)
    requires IsEnv(e) && Good(e, v)
  {
    Spec(s, op, Step(e, RunFrom(e, v, front), op).1, t)
  }

  lemma TraceSnoc(e: Env, v: Vol, front: seq<Op>, op: Op, stores: seq<Store>, t: Store)
    requires IsEnv(e) && Good(e, v) && Trace(e, v, front, stores)
    requires TraceAt(e, v, front, op, stores[|front|], t)
    ensures Trace(e, v, front + [op], stores + [t])
  {
    var (ops, all) := (front + [op], stores + [t]);
    forall i | 0 <= i < |ops| ensures TraceAt(e, v, ops[..i], ops[i], all[i], all[i + 1]) {
      assert ops[..i] == front[..i];
      if i == |front| { assert front[..i] == front; }
    }
  }

  lemma RefinesNext(e: Env, v: Vol, front: seq<Op>, op: Op, s: Store) returns (t: Store)
    requires IsEnv(e) && Good(e, v) && Holds(e, RunFrom(e, v, front), s)
    ensures TraceAt(e, v, front, op, s, t) && Holds(e, RunFrom(e, v, front + [op]), t)
  {
    var u := RunFrom(e, v, front);
    Refines(e, u, s, op);
    RunSnoc(e, v, front, op);
    t := NextStore(s, op, Step(e, u, op).0);
  }

  lemma RefinesSnoc(e: Env, v: Vol, front: seq<Op>, op: Op, before: seq<Store>) returns (after: seq<Store>)
    requires IsEnv(e) && Good(e, v) && Trace(e, v, front, before)
    requires Holds(e, RunFrom(e, v, front), before[|front|])
    ensures Trace(e, v, front + [op], after) && after[0] == before[0]
    ensures Holds(e, RunFrom(e, v, front + [op]), after[|front| + 1])
  {
    var t := RefinesNext(e, v, front, op, before[|front|]);
    TraceSnoc(e, v, front, op, before, t);
    after := before + [t];
  }

  lemma RefinesNil(e: Env, v: Vol, s: Store)
    requires IsEnv(e) && Holds(e, v, s)
    ensures Trace(e, v, [], [s]) && Holds(e, RunFrom(e, v, []), s)
  {
  }

  /** Every run of the vault, with any failures, is a run of the abstract store with the same results. */
  lemma {:induction false} RunRefines(e: Env, v: Vol, s: Store, ops: seq<Op>) returns (stores: seq<Store>)
    requires IsEnv(e) && Holds(e, v, s)
    ensures Trace(e, v, ops, stores) && stores[0] == s && Holds(e, RunFrom(e, v, ops), stores[|ops|])
    decreases |ops|
  {
    hide Lawful, Stamped, ClearFrom, FreeCount, TraceAt, RunFrom;
    if ops == [] {
      stores := [s];
      RefinesNil(e, v, s);
    } else {
      var front, op := ops[..|ops| - 1], ops[|ops| - 1];
      stores := RunRefines(e, v, s, front);
      stores := RefinesSnoc(e, v, front, op, stores);
      assert ops == front + [op];
    }
  }

  /** A fresh container is the empty store. */
  lemma CreateHolds(e: Env, n: nat)
    requires IsEnv(e) && n <= MAX_DATA_BLOCKS
    ensures Holds(e, CreateNew(e.c, e.key, n), Store(n, {}, {}, map[]))
  {
    GoodCreate(e, n);
    EmptyIsClear(n);
  }

  /** Every run on a fresh container, with any failures, is a run of the empty store with the same results. */
  lemma VaultRefinesStore(e: Env, n: nat, ops: seq<Op>) returns (stores: seq<Store>)
    requires IsEnv(e) && n <= MAX_DATA_BLOCKS
    ensures Good(e, CreateNew(e.c, e.key, n)) && Trace(e, CreateNew(e.c, e.key, n), ops, stores)
    ensures stores[0] == Store(n, {}, {}, map[]) && Holds(e, Reached(e, n, ops), stores[|ops|])
  {
    CreateHolds(e, n);
    stores := RunRefines(e, CreateNew(e.c, e.key, n), Store(n, {}, {}, map[]), ops);
  }

  // ---- what a reader sees --------------------------------------------------------------

  /** The payload of the last write to b, if that write was done. */
  function LastWritten(ops: seq<Op>, b: nat): Option<Payload> {
    if ops == [] then None
    else
      var op := ops[|ops| - 1];
      if op.Put? && op.b == b then (if op.io.Done? then Some(op.p) else None)
      else LastWritten(ops[..|ops| - 1], b)
  }

  /**
   Reading a block returns the payload last written to it, after any run of allocations, frees,
   reservations, writes to other blocks, failures of those, and reopens.
   */
  lemma {:induction false} ReadsLastWritten(e: Env, n: nat, ops: seq<Op>, b: nat)
    requires IsEnv(e) && n <= MAX_DATA_BLOCKS && DATA_START <= b < DATA_START + n
    requires LastWritten(ops, b).Some?
    ensures ReadBlock(e.c, e.key, Reached(e, n, ops), b) == Ok(LastWritten(ops, b).value)
    decreases |ops|
  {
    var front, op := ops[..|ops| - 1], ops[|ops| - 1];
    var u := Reached(e, n, front);
    GoodCreate(e, n);
    RunLast(e, CreateNew(e.c, e.key, n), ops);
    if op.Put? && op.b == b {
      PutReads(e, u, op.b, op.p, op.n);
    } else {
      ReadsLastWritten(e, n, front, b);
      BlockFrame(e, u, op, b);
    }
  }
}
