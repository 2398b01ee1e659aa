/**
 The batch, canary and identity-stamp operations built on the vault
 (`secure_core/src/lib.rs`, `secure_core/src/init_module.rs`).
 */
module VaultClients {
  import opened Bytes
  import opened Bitmap
  import opened Storage
  import opened Vault
  import opened VaultRuns
  import opened VaultStore
  import opened Reserved

  // ---- runs that leave things alone ----------------------------------------------------

  predicate NoPut(ops: seq<Op>, b: nat) {
    forall i :: 0 <= i < |ops| ==> !(ops[i].Put? && ops[i].b == b)
  }

  /** A block nobody writes keeps its bytes over any run. */
  lemma {:induction false} RunBlockFrame(e: Env, v: Vol, ops: seq<Op>, b: nat)
    requires IsEnv(e) && Good(e, v) && InRange(v, b) && NoPut(ops, b)
    ensures RawBlock(RunFrom(e, v, ops), b) == RawBlock(v, b)
    decreases |ops|
  {
    if ops != [] {
      var front := ops[..|ops| - 1];
      RunBlockFrame(e, v, front, b);
      BlockFrame(e, RunFrom(e, v, front), ops[|ops| - 1], b);
      RunLast(e, v, ops);
    }
  }

  /** The allocation state, in memory and on disk. */
  ghost predicate SameAllocation(v: Vol, w: Vol)
    requires Shaped(v) && Shaped(w)
  {
    w.bitmap == v.bitmap && w.free == v.free && DiskMap(w) == DiskMap(v)
  }

  lemma PutKeeps(e: Env, v: Vol, op: Op)
    requires IsEnv(e) && Good(e, v) && op.Put?
    ensures var w := Step(e, v, op).0; Shaped(w) && SameAllocation(v, w)
  {
    GoodPut(e, v, op.b, op.p, op.n, op.io);
  }

  /** Block b is there and opens to p. */
  ghost predicate Stores(e: Env, v: Vol, b: nat, p: seq<byte>)
    requires Shaped(v)
  {
    InRange(v, b) && OpenBlock(e.c, e.key, b, RawBlock(v, b)) == Some(p)
  }

  ghost predicate Readable(e: Env, v: Vol, b: nat)
    requires Shaped(v)
  {
    InRange(v, b) && OpenBlock(e.c, e.key, b, RawBlock(v, b)).Some?
  }

  // ---- batches -------------------------------------------------------------------------

  /** One block of a batch: its payload, the nonce drawn for it and how its write went. */
  datatype Item = Item(p: Payload, n: Nonce, io: Io)

  /** One block written, whatever the outcome. */
  ghost function PutOne(e: Env, v: Vol, b: u64, it: Item): (w: Vol)
    requires IsEnv(e) && Shaped(v)
    ensures Shaped(w) && w.total == v.total
  {
    OpenSeal(e.c, e.key, b, it.p, it.n);
    WriteBlock(e.c, e.key, v, b, it.p, it.n, it.io).0
  }

  /** The state after the first c writes of a batch. */
  ghost function Puts(e: Env, v: Vol, b: u64, items: seq<Item>, c: nat): (w: Vol)
    requires IsEnv(e) && Shaped(v) && c <= |items| && b + c <= U64_LIMIT
    ensures Shaped(w) && w.total == v.total
  {
    if c == 0 then v else PutOne(e, Puts(e, v, b, items, c - 1), b + c - 1, items[c - 1])
  }

  /** How many blocks from b on are written before the first failure. */
  function Written(total: u64, b: nat, items: seq<Item>): (c: nat)
    ensures c <= |items|
    ensures c > 0 ==> DATA_START <= b && b + c <= total
    ensures forall i :: 0 <= i < c ==> items[i].io.Done?
    ensures c < |items| ==> !(DATA_START <= b + c < total) || !items[c].io.Done?
    decreases |items|
  {
    if items == [] || !(DATA_START <= b < total) || !items[0].io.Done? then 0
    else 1 + Written(total, b + 1, items[1..])
  }

  /** The writes that reach the disk: those that were done and the one that failed, if it was in range. */
  function Attempted(total: u64, b: nat, items: seq<Item>): (m: nat)
    ensures m <= |items| && (m > 0 ==> b + m <= total)
  {
    var c := Written(total, b, items);
    if c < |items| && DATA_START <= b + c < total then c + 1 else c
  }

  /** What `write_vault_blocks` leaves: consecutive blocks from b on, up to the first failure. */
  ghost function WriteFrom(e: Env, v: Vol, b: u64, items: seq<Item>): (w: Vol)
    requires IsEnv(e) && Shaped(v)
    ensures Shaped(w) && w.total == v.total
  {
    Puts(e, v, b, items, Attempted(v.total, b, items))
  }

  predicate AllDone(items: seq<Item>) {
    forall i :: 0 <= i < |items| ==> items[i].io.Done?
  }

  /** With working I/O a batch stops only at the end of the vault. */
  lemma {:induction false} BatchCount(total: u64, b: nat, items: seq<Item>)
    requires AllDone(items)
    ensures Written(total, b, items) ==
            if !(DATA_START <= b < total) then 0 else if |items| <= total - b then |items| else total - b
    ensures Attempted(total, b, items) == Written(total, b, items)
    decreases |items|
  {
    if items != [] && DATA_START <= b < total {
      BatchCount(total, b + 1, items[1..]);
    }
  }

  /** Writing one block keeps the allocation state and every other block. */
  lemma PutOneFrame(e: Env, v: Vol, b: u64, it: Item)
    requires IsEnv(e) && Good(e, v)
    ensures var w := PutOne(e, v, b, it);
            && Good(e, w) && SameAllocation(v, w)
            && forall x: nat :: InRange(v, x) && x != b ==> RawBlock(w, x) == RawBlock(v, x)
  {
    var op := Put(b, it.p, it.n, it.io);
    GoodStep(e, v, op);
    PutKeeps(e, v, op);
    if InRange(v, b) { PutFrame(e, v, b, it.p, it.n, it.io); }
  }

  lemma PutOneStores(e: Env, v: Vol, b: u64, it: Item)
    requires IsEnv(e) && Good(e, v) && InRange(v, b) && it.io.Done?
    ensures Stores(e, PutOne(e, v, b, it), b, it.p)
  {
    PutReads(e, v, b, it.p, it.n);
  }

  lemma {:induction false} PutsGood(e: Env, v: Vol, b: u64, items: seq<Item>, c: nat)
    requires IsEnv(e) && Good(e, v) && c <= |items| && b + c <= U64_LIMIT
    ensures var w := Puts(e, v, b, items, c); Good(e, w) && SameAllocation(v, w)
    decreases c
  {
    hide PutOne, Lawful, Stamped, ClearFrom;
    if c > 0 {
      PutsGood(e, v, b, items, c - 1);
      PutOneFrame(e, Puts(e, v, b, items, c - 1), b + c - 1, items[c - 1]);
    }
  }

  lemma {:induction false} PutsFrame(e: Env, v: Vol, b: u64, items: seq<Item>, c: nat, x: nat)
    requires IsEnv(e) && Good(e, v) && c <= |items| && b + c <= U64_LIMIT
    requires InRange(v, x) && (x < b || x >= b + c)
    ensures RawBlock(Puts(e, v, b, items, c), x) == RawBlock(v, x)
    decreases c
  {
    hide PutOne, Lawful, Stamped, ClearFrom;
    if c > 0 {
      PutsFrame(e, v, b, items, c - 1, x);
      PutsGood(e, v, b, items, c - 1);
      PutOneFrame(e, Puts(e, v, b, items, c - 1), b + c - 1, items[c - 1]);
    }
  }

  lemma {:induction false} PutsStore(e: Env, v: Vol, b: u64, items: seq<Item>, c: nat, i: nat)
    requires IsEnv(e) && Good(e, v) && i < c <= |items| && b + c <= U64_LIMIT
    requires InRange(v, b + i) && items[i].io.Done?
    ensures Stores(e, Puts(e, v, b, items, c), b + i, items[i].p)
    decreases c
  {
    hide PutOne, Lawful, Stamped, ClearFrom;
    var u := Puts(e, v, b, items, c - 1);
    PutsGood(e, v, b, items, c - 1);
    if i == c - 1 {
      PutOneStores(e, u, b + i, items[i]);
    } else {
      PutsStore(e, v, b, items, c - 1, i);
      PutOneFrame(e, u, b + c - 1, items[c - 1]);
    }
  }

  /** A batch touches the blocks it wrote, the one where it failed, and nothing else. */
  lemma BatchFrame(e: Env, v: Vol, b: u64, items: seq<Item>, x: nat)
    requires IsEnv(e) && Good(e, v) && InRange(v, x)
    requires x < b || x >= b + Attempted(v.total, b, items)
    ensures var w := WriteFrom(e, v, b, items); Good(e, w) && SameAllocation(v, w) && RawBlock(w, x) == RawBlock(v, x)
  {
    PutsGood(e, v, b, items, Attempted(v.total, b, items));
    PutsFrame(e, v, b, items, Attempted(v.total, b, items), x);
  }

  /** Where a write fails, the block holds its old bytes and the new ones as far as they landed. */
  lemma BatchTorn(e: Env, v: Vol, b: u64, items: seq<Item>)
    requires IsEnv(e) && Good(e, v)
    requires var c := Written(v.total, b, items); c < |items| && InRange(v, b + c)
    ensures var (c, w) := (Written(v.total, b, items), WriteFrom(e, v, b, items));
            |SealBlock(e.c, e.key, b + c, items[c].p, items[c].n)| == BLOCK_SIZE
            && RawBlock(w, b + c) == Torn(RawBlock(v, b + c), SealBlock(e.c, e.key, b + c, items[c].p, items[c].n), items[c].io)
  {
    hide PutOne, Lawful, Stamped, ClearFrom, Written, SealBlock, FreeCount;
    var c := Written(v.total, b, items);
    PutsGood(e, v, b, items, c);
    PutsFrame(e, v, b, items, c, b + c);
    PutOneTorn(e, Puts(e, v, b, items, c), b + c, items[c]);
  }

  lemma PutOneTorn(e: Env, v: Vol, b: u64, it: Item)
    requires IsEnv(e) && Good(e, v) && InRange(v, b)
    ensures |SealBlock(e.c, e.key, b, it.p, it.n)| == BLOCK_SIZE
    ensures RawBlock(PutOne(e, v, b, it), b) == Torn(RawBlock(v, b), SealBlock(e.c, e.key, b, it.p, it.n), it.io)
  {
    PutFrame(e, v, b, it.p, it.n, it.io);
  }

  /** Every block a batch reports written holds its payload. */
  lemma BatchWrites(e: Env, v: Vol, b: u64, items: seq<Item>, i: nat)
    requires IsEnv(e) && Good(e, v) && i < Written(v.total, b, items)
    ensures Stores(e, WriteFrom(e, v, b, items), b + i, items[i].p)
  {
    PutsStore(e, v, b, items, Attempted(v.total, b, items), i);
  }

  /** The i-th payload of a buffer. */
  function Chunk(data: seq<byte>, i: nat): Payload
    requires (i + 1) * PAYLOAD_SIZE <= |data|
  {
    data[i * PAYLOAD_SIZE..(i + 1) * PAYLOAD_SIZE]
  }

  /** What `read_vault_blocks` promises: as many blocks as can be read from b on, at the front of the buffer. */
  ghost predicate ReadsInto(e: Env, v: Vol, b: nat, n: nat, c: nat, out: seq<byte>)
    requires Shaped(v)
  {
    && c <= n && |out| == n * PAYLOAD_SIZE
    && (forall i :: 0 <= i < c ==> Stores(e, v, b + i, Chunk(out, i)))
    && (c < n ==> !Readable(e, v, b + c))
  }

  lemma SameChunks(x: seq<byte>, y: seq<byte>, c: nat)
    requires |x| == c * PAYLOAD_SIZE <= |y|
    requires forall i :: 0 <= i < c ==> Chunk(x, i) == Chunk(y, i)
    ensures x == y[..c * PAYLOAD_SIZE]
  {
    forall k | 0 <= k < |x| ensures x[k] == y[k] {
      var i := k / PAYLOAD_SIZE;
      assert Chunk(x, i)[k - i * PAYLOAD_SIZE] == Chunk(y, i)[k - i * PAYLOAD_SIZE];
    }
  }

  /** Reading back as many blocks as a batch wrote succeeds and returns exactly that prefix of its data. */
  lemma BatchRoundTrip(e: Env, v: Vol, b: u64, items: seq<Item>, data: seq<byte>, c: nat, out: seq<byte>)
    requires IsEnv(e) && Good(e, v)
    requires |data| == |items| * PAYLOAD_SIZE && forall i :: 0 <= i < |items| ==> items[i].p == Chunk(data, i)
    requires ReadsInto(e, WriteFrom(e, v, b, items), b, Written(v.total, b, items), c, out)
    ensures c == Written(v.total, b, items) && out == data[..c * PAYLOAD_SIZE]
  {
    var w := WriteFrom(e, v, b, items);
    if c < Written(v.total, b, items) {
      BatchWrites(e, v, b, items, c);
      assert false;
    }
    forall i | 0 <= i < c ensures Chunk(out, i) == Chunk(data, i) {
      BatchWrites(e, v, b, items, i);
    }
    SameChunks(out, data, c);
  }

  // ---- canaries ------------------------------------------------------------------------

  const FIRST_RESERVED := 994
  const FIRST_CANARY := 995
  const CANARY: seq<byte> := [67, 65, 78, 65, 82, 89]

  /** The state after reserving the first c of the six blocks, whatever became of each write. */
  function Reserves(v: Vol, ios: seq<Io>, c: nat): (w: Vol)
    requires Shaped(v) && c <= |ios| == 6
    ensures Shaped(w) && w.total == v.total
  {
    if c == 0 then v else Reserve(Reserves(v, ios, c - 1), FIRST_RESERVED + c - 1, ios[c - 1]).0
  }

  predicate IsCanary(p: seq<byte>) {
    |p| >= 6 && p[..6] == CANARY
  }

  /** The name, the slot number, a version byte and random filler. */
  function CanaryPayload(slot: nat, filler: seq<byte>): (p: Payload)
    requires slot < 5 && |filler| == 4060
    ensures IsCanary(p) && p[6] == slot && p[7] == 1 && p[8..] == filler
  {
    CANARY + [slot, 1] + filler
  }

  predicate CanaryItems(items: seq<Item>) {
    |items| == 5 && forall i :: 0 <= i < 5 ==> items[i].p == CanaryPayload(i, items[i].p[8..])
  }

  /** What `init_canary_slots` leaves and returns; errors of the reservations are ignored. */
  ghost function InitCanary(e: Env, v: Vol, ios: seq<Io>, items: seq<Item>): (r: (Vol, u32))
    requires IsEnv(e) && Shaped(v) && |ios| == 6 && CanaryItems(items)
    ensures Shaped(r.0) && r.0.total == v.total
  {
    (WriteFrom(e, Reserves(v, ios, 6), FIRST_CANARY, items), if Written(v.total, FIRST_CANARY, items) == 5 then 0 else 2)
  }

  /** `validate_canary_slots`, from slot b on. */
  function Validate(c: Cipher, key: Key, v: Vol, b: nat): u32
    requires Shaped(v) && b <= 1000
    decreases 1000 - b
  {
    if b == 1000 then 0
    else if !InRange(v, b) then 2
    else match OpenBlock(c, key, b, RawBlock(v, b))
      case None => 2
      case Some(p) => if IsCanary(p) then Validate(c, key, v, b + 1) else 2
  }

  /**
   Initialising the canaries returns 0 exactly when blocks 995 to 999 exist and all five were written,
   and 2 otherwise: what became of the reservations does not show.
   */
  lemma InitCanaryCode(e: Env, v: Vol, ios: seq<Io>, items: seq<Item>)
    requires IsEnv(e) && Shaped(v) && |ios| == 6 && CanaryItems(items)
    ensures var code := InitCanary(e, v, ios, items).1;
            && (code == 0 <==> v.total >= 1000 && forall i :: 0 <= i < 5 ==> items[i].io.Done?)
            && (code != 0 ==> code == 2)
  {
  }

  /** One reservation: what was set stays set, and the block itself is set if it exists. */
  lemma HoldOne(e: Env, v: Vol, b: u64, io: Io, x: nat)
    requires IsEnv(e) && Good(e, v) && InRange(v, x)
    ensures var w := Reserve(v, b, io).0;
            Good(e, w) && (x == b || IsSet(v.bitmap, x - DATA_START) ==> IsSet(w.bitmap, x - DATA_START))
  {
    hide Lawful, Stamped, FreeCount, SetBit;
    GoodHold(e, v, b, io);
    if InRange(v, b) { SetBitIsSet(v.bitmap, b - DATA_START, x - DATA_START); }
  }

  lemma {:induction false} ReservesGood(e: Env, v: Vol, ios: seq<Io>, c: nat)
    requires IsEnv(e) && Good(e, v) && c <= |ios| == 6
    ensures Good(e, Reserves(v, ios, c))
    decreases c
  {
    if c > 0 {
      ReservesGood(e, v, ios, c - 1);
      GoodHold(e, Reserves(v, ios, c - 1), FIRST_RESERVED + c - 1, ios[c - 1]);
    }
  }

  lemma {:induction false} ReservesSet(e: Env, v: Vol, ios: seq<Io>, c: nat, x: nat)
    requires IsEnv(e) && Good(e, v) && c <= |ios| == 6 && 994 <= x < 994 + c && InRange(v, x)
    ensures IsSet(Reserves(v, ios, c).bitmap, x - DATA_START)
    decreases c
  {
    hide Lawful, Stamped, FreeCount, ClearFrom, IsSet, SetBit, Reserve;
    ReservesGood(e, v, ios, c - 1);
    if x < 994 + c - 1 { ReservesSet(e, v, ios, c - 1, x); }
    HoldOne(e, Reserves(v, ios, c - 1), FIRST_RESERVED + c - 1, ios[c - 1], x);
  }

  /** A reservation that rewrites the bitmap leaves memory and disk in agreement; a lost one leaves the disk. */
  lemma HoldDisk(e: Env, v: Vol, b: u64, io: Io)
    requires IsEnv(e) && Good(e, v)
    ensures var w := Reserve(v, b, io).0;
            && Shaped(w) && (io.Done? && InRange(v, b) && !IsSet(v.bitmap, b - DATA_START) ==> Synced(w))
            && (io == Failed({}) ==> DiskMap(w) == DiskMap(v))
  {
    var w := Step(e, v, Hold(b, io)).0;
    StepPersists(e, v, Hold(b, io));
    if io.Done? && InRange(v, b) && !IsSet(v.bitmap, b - DATA_START) {
      PersistFrame(v.(bitmap := SetBit(v.bitmap, b - DATA_START), free := Decrement(v.free)), io);
    }
    if io == Failed({}) { assert Torn(DiskMap(v), w.bitmap, io) == DiskMap(v); }
  }

  lemma {:induction false} ReservesLost(e: Env, v: Vol, ios: seq<Io>, c: nat)
    requires IsEnv(e) && Good(e, v) && c <= |ios| == 6 && forall i :: 0 <= i < c ==> ios[i] == Failed({})
    ensures DiskMap(Reserves(v, ios, c)) == DiskMap(v)
    decreases c
  {
    hide Lawful, Stamped, FreeCount, Reserve;
    if c > 0 {
      ReservesGood(e, v, ios, c - 1);
      ReservesLost(e, v, ios, c - 1);
      HoldDisk(e, Reserves(v, ios, c - 1), FIRST_RESERVED + c - 1, ios[c - 1]);
    }
  }

  /** The first c reservations leave the blocks after them as they were. */
  lemma {:induction false} ReservesAbove(v: Vol, ios: seq<Io>, c: nat, x: nat)
    requires Shaped(v) && c <= |ios| == 6 && 994 + c <= x && InRange(v, x)
    ensures IsSet(Reserves(v, ios, c).bitmap, x - DATA_START) <==> IsSet(v.bitmap, x - DATA_START)
    decreases c
  {
    if c > 0 {
      ReservesAbove(v, ios, c - 1, x);
      SetBitIsSet(Reserves(v, ios, c - 1).bitmap, FIRST_RESERVED + c - 1 - DATA_START, x - DATA_START);
    }
  }

  /** Reservation i was free and its rewrite was done, so it recorded every bit set by then. */
  predicate Records(v: Vol, ios: seq<Io>, i: nat)
    requires Shaped(v) && |ios| == 6 && i < 6
  {
    ios[i].Done? && InRange(v, FIRST_RESERVED + i) && !IsSet(v.bitmap, FIRST_RESERVED + i - DATA_START)
  }

  lemma {:induction false} ReservesPinned(e: Env, v: Vol, ios: seq<Io>, c: nat, i: nat, x: nat)
    requires IsEnv(e) && Good(e, v) && i < c <= |ios| == 6 && Records(v, ios, i)
    requires 994 <= x <= 994 + i && InRange(v, x)
    ensures Pinned(Reserves(v, ios, c), x)
    decreases c
  {
    hide Lawful, Stamped, FreeCount, ClearFrom, IsSet, SetBit, Reserve, Step;
    var u, b := Reserves(v, ios, c - 1), FIRST_RESERVED + c - 1;
    ReservesGood(e, v, ios, c - 1);
    if i == c - 1 {
      ReservesAbove(v, ios, i, b);
      HoldDisk(e, u, b, ios[i]);
      ReservesSet(e, v, ios, c, x);
    } else {
      ReservesPinned(e, v, ios, c - 1, i, x);
      HoldPinned(e, u, b, ios[c - 1], x);
    }
  }

  lemma HoldPinned(e: Env, v: Vol, b: u64, io: Io, x: nat)
    requires IsEnv(e) && Good(e, v) && InRange(v, x) && Pinned(v, x)
    ensures var w := Reserve(v, b, io).0; Shaped(w) && InRange(w, x) && Pinned(w, x)
  {
    PinnedStep(e, v, Hold(b, io), x);
  }

  /** Holding what is already held changes nothing. */
  lemma {:induction false} ReservesAgain(v: Vol, ios: seq<Io>, c: nat)
    requires Shaped(v) && c <= |ios| == 6
    requires forall x: nat :: 994 <= x <= 999 && InRange(v, x) ==> IsSet(v.bitmap, x - DATA_START)
    ensures Reserves(v, ios, c) == v
    decreases c
  {
    if c > 0 {
      ReservesAgain(v, ios, c - 1);
      var x: nat := FIRST_RESERVED + c - 1;
      assert InRange(v, x) ==> IsSet(v.bitmap, x - DATA_START);
    }
  }

  lemma InitGood(e: Env, v: Vol, ios: seq<Io>, items: seq<Item>)
    requires IsEnv(e) && Good(e, v) && |ios| == 6 && CanaryItems(items)
    ensures var w := InitCanary(e, v, ios, items).0; Good(e, w) && SameAllocation(Reserves(v, ios, 6), w)
  {
    ReservesGood(e, v, ios, 6);
    PutsGood(e, Reserves(v, ios, 6), FIRST_CANARY, items, Attempted(v.total, FIRST_CANARY, items));
  }

  /**
   After `init_canary_slots`, whatever failed in it, each of the blocks 994 to 999 that exists is
   taken in memory. No later run without an explicit free hands it out exactly when its bit is on
   disk; one rewrite that was done, at the block's own reservation or a later one, puts it there.
   */
  lemma CanariesReserved(e: Env, v: Vol, ios: seq<Io>, items: seq<Item>, x: nat)
    requires IsEnv(e) && Good(e, v) && |ios| == 6 && CanaryItems(items)
    requires 994 <= x <= 999 && InRange(v, x)
    ensures var w := InitCanary(e, v, ios, items).0;
            && Good(e, w) && IsSet(w.bitmap, x - DATA_START)
            && (NeverHandedOut(e, w, x) <==> IsSet(DiskMap(w), x - DATA_START))
            && ((exists i: nat :: x - 994 <= i < 6 && Records(v, ios, i)) ==> NeverHandedOut(e, w, x))
  {
    InitGood(e, v, ios, items);
    ReservesSet(e, v, ios, 6, x);
    ReservedIff(e, InitCanary(e, v, ios, items).0, x);
    if i: nat :| x - 994 <= i < 6 && Records(v, ios, i) {
      ReservesPinned(e, v, ios, 6, i, x);
    }
  }

  predicate NoReopen(ops: seq<Op>) {
    forall i :: 0 <= i < |ops| ==> !ops[i].Reopen?
  }

  /** The six blocks are not freed in the run, and where it reopens their bits were on disk. */
  ghost predicate Spares(v: Vol, ops: seq<Op>)
    requires Shaped(v)
  {
    forall x: nat :: 994 <= x <= 999 && InRange(v, x) ==>
      NoDrop(ops, x) && (NoReopen(ops) || IsSet(DiskMap(v), x - DATA_START))
  }

  lemma StillSet(e: Env, w: Vol, ops: seq<Op>, x: nat)
    requires IsEnv(e) && Good(e, w) && InRange(w, x) && IsSet(w.bitmap, x - DATA_START)
    requires NoDrop(ops, x) && (NoReopen(ops) || IsSet(DiskMap(w), x - DATA_START))
    ensures IsSet(RunFrom(e, w, ops).bitmap, x - DATA_START)
  {
    if NoReopen(ops) { MemoryRun(e, w, ops, x); } else { PinnedRun(e, w, ops, x); }
  }

  /**
   A second call, after any run that spares the six blocks, leaves the allocation and the free count
   as it found them.
   */
  lemma CanariesTwice(e: Env, v: Vol, ios: seq<Io>, items: seq<Item>, ops: seq<Op>, ios': seq<Io>, items': seq<Item>)
    requires IsEnv(e) && Good(e, v) && |ios| == |ios'| == 6 && CanaryItems(items) && CanaryItems(items')
    requires Spares(InitCanary(e, v, ios, items).0, ops)
    ensures var w := InitCanary(e, v, ios, items).0;
            Good(e, w) && var u := RunFrom(e, w, ops); SameAllocation(u, InitCanary(e, u, ios', items').0)
  {
    var w := InitCanary(e, v, ios, items).0;
    InitGood(e, v, ios, items);
    var u := RunFrom(e, w, ops);
    forall x: nat | 994 <= x <= 999 && InRange(u, x) ensures IsSet(u.bitmap, x - DATA_START) {
      ReservesSet(e, v, ios, 6, x);
      StillSet(e, w, ops, x);
    }
    ReservesAgain(u, ios', 6);
    InitGood(e, u, ios', items');
  }

  /** The block can be read and begins with the canary's name. */
  ghost predicate Intact(c: Cipher, key: Key, v: Vol, b: nat)
    requires Shaped(v)
  {
    InRange(v, b) && var p := OpenBlock(c, key, b, RawBlock(v, b)); p.Some? && IsCanary(p.value)
  }

  /** Validation succeeds exactly when every canary is intact. */
  lemma {:induction false} ValidateIff(c: Cipher, key: Key, v: Vol, b: nat)
    requires Shaped(v) && b <= 1000
    ensures Validate(c, key, v, b) == 0 <==> forall x: nat :: b <= x < 1000 ==> Intact(c, key, v, x)
    ensures Validate(c, key, v, b) in {0, 2}
    decreases 1000 - b
  {
    if b < 1000 {
      ValidateIff(c, key, v, b + 1);
      if Validate(c, key, v, b) == 0 {
        assert Intact(c, key, v, b);
      } else {
        assert Intact(c, key, v, b) ==> Validate(c, key, v, b + 1) != 0;
      }
    }
  }

  lemma CanaryWritten(e: Env, v: Vol, ios: seq<Io>, items: seq<Item>, x: nat)
    requires IsEnv(e) && Good(e, v) && |ios| == 6 && CanaryItems(items) && 995 <= x < 1000
    requires InitCanary(e, v, ios, items).1 == 0
    ensures var p := items[x - 995].p;
            && Stores(e, InitCanary(e, v, ios, items).0, x, p) && IsCanary(p)
            && p[..6] == [67, 65, 78, 65, 82, 89] && p[6] == x - 995 && p[7] == 1
  {
    ReservesGood(e, v, ios, 6);
    BatchWrites(e, Reserves(v, ios, 6), FIRST_CANARY, items, x - 995);
  }

  lemma CanaryStays(e: Env, v: Vol, ios: seq<Io>, items: seq<Item>, ops: seq<Op>, x: nat)
    requires IsEnv(e) && Good(e, v) && |ios| == 6 && CanaryItems(items) && 995 <= x < 1000
    requires InitCanary(e, v, ios, items).1 == 0 && NoPut(ops, x)
    ensures var w := InitCanary(e, v, ios, items).0;
            Good(e, w) && Intact(e.c, e.key, RunFrom(e, w, ops), x)
  {
    hide Lawful, InitCanary, RunFrom;
    InitGood(e, v, ios, items);
    CanaryWritten(e, v, ios, items, x);
    RunBlockFrame(e, InitCanary(e, v, ios, items).0, ops, x);
  }

  /**
   If `init_canary_slots` returned 0 and nobody writes 995 to 999 afterwards, validation succeeds
   after any run, with any failures elsewhere and any number of reopens.
   */
  lemma CanariesValidate(e: Env, v: Vol, ios: seq<Io>, items: seq<Item>, ops: seq<Op>)
    requires IsEnv(e) && Good(e, v) && |ios| == 6 && CanaryItems(items)
    requires InitCanary(e, v, ios, items).1 == 0
    requires forall x: nat :: 995 <= x < 1000 ==> NoPut(ops, x)
    ensures var w := InitCanary(e, v, ios, items).0;
            Good(e, w) && Validate(e.c, e.key, RunFrom(e, w, ops), FIRST_CANARY) == 0
  {
    hide Lawful, InitCanary, Intact, RunFrom;
    InitGood(e, v, ios, items);
    var u := RunFrom(e, InitCanary(e, v, ios, items).0, ops);
    forall x: nat | 995 <= x < 1000 ensures Intact(e.c, e.key, u, x) {
      CanaryStays(e, v, ios, items, ops, x);
    }
    ValidateIff(e.c, e.key, u, FIRST_CANARY);
  }

  /** With working writes and a vault that has the blocks, initialisation returns 0 and validation then does. */
  lemma CanariesWork(e: Env, v: Vol, ios: seq<Io>, items: seq<Item>, ops: seq<Op>)
    requires IsEnv(e) && Good(e, v) && |ios| == 6 && CanaryItems(items)
    requires v.total >= 1000 && AllDone(items)
    requires forall x: nat :: 995 <= x < 1000 ==> NoPut(ops, x)
    ensures var (w, code) := InitCanary(e, v, ios, items);
            code == 0 && Good(e, w) && Validate(e.c, e.key, RunFrom(e, w, ops), FIRST_CANARY) == 0
  {
    InitCanaryCode(e, v, ios, items);
    CanariesValidate(e, v, ios, items, ops);
  }

  /**
   The reservation errors that `init_canary_slots` ignores matter: if one of the six blocks was free
   on disk and the rewrites that should record them leave nothing there, some later run hands it out.
   */
  lemma IgnoredErrorLosesReservation(e: Env, v: Vol, ios: seq<Io>, items: seq<Item>, x: nat)
    requires IsEnv(e) && Good(e, v) && CanaryItems(items)
    requires |ios| == 6 && forall i :: 0 <= i < 6 ==> ios[i] == Failed({})
    requires 994 <= x <= 999 && InRange(v, x) && !IsSet(DiskMap(v), x - DATA_START)
    ensures var w := InitCanary(e, v, ios, items).0; Good(e, w) && !NeverHandedOut(e, w, x)
  {
    InitGood(e, v, ios, items);
    ReservesLost(e, v, ios, 6);
    ReservedIff(e, InitCanary(e, v, ios, items).0, x);
  }

  // ---- identity stamp ------------------------------------------------------------------

  function StampPayload(stamp: Key): (p: Payload)
    ensures p[..32] == stamp && forall k :: 32 <= k < |p| ==> p[k] == 0
  {
    stamp + seq(4036, _ => 0)
  }

  /** `read_id_stamp`. */
  function ReadStamp(c: Cipher, key: Key, v: Vol): Option<seq<byte>>
    requires Shaped(v)
  {
    match ReadBlock(c, key, v, 994)
    case Ok(p) => if |p| >= 32 then Some(p[..32]) else None
    case Err(_) => None
  }

  /** The stamp is what the first 32 bytes of block 994 open to, and there is none exactly when it cannot be read. */
  lemma ReadStampIff(c: Cipher, key: Key, v: Vol)
    requires Lawful(c) && Shaped(v)
    ensures ReadStamp(c, key, v) == None <==> v.total <= 994 || OpenBlock(c, key, 994, RawBlock(v, 994)) == None
    ensures ReadStamp(c, key, v).Some? ==>
              v.total > 994 && OpenBlock(c, key, 994, RawBlock(v, 994)).value[..32] == ReadStamp(c, key, v).value
  {
  }

  /** A stamp that was persisted is read back after any run that does not write its block. */
  lemma StampSurvives(e: Env, v: Vol, stamp: Key, n: Nonce, ops: seq<Op>)
    requires IsEnv(e) && Good(e, v) && InRange(v, 994) && NoPut(ops, 994)
    ensures var w := Step(e, v, Put(994, StampPayload(stamp), n, Done)).0;
            Good(e, w) && ReadStamp(e.c, e.key, RunFrom(e, w, ops)) == Some(stamp)
  {
    var p := StampPayload(stamp);
    GoodPut(e, v, 994, p, n, Done);
    PutReads(e, v, 994, p, n);
    RunBlockFrame(e, Step(e, v, Put(994, p, n, Done)).0, ops, 994);
    assert p[..32] == stamp;
  }
}
