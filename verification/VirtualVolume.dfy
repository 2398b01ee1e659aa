/**
 The open container, updated in place: the scan, recount, batch and canary loops of
 `virtual_volume.rs` and `lib.rs`, each proved equal to its value-level operation.
 */
module VirtualVolume {
  import opened Bytes
  import opened Bitmap
  import opened Storage
  import opened Vault
  import opened VaultRuns
  import opened VaultStore
  import opened VaultClients
  import Superblock

  /** `bitmap[i >> 3] & (1 << (i & 7)) == 0`. */
  method TestBit(m: Map, i: nat) returns (clear: bool)
    requires i < MAX_DATA_BLOCKS
    ensures clear <==> !IsSet(m, i)
  {
    TestMask(m[i / 8], i % 8);
    clear := And(m[i / 8], Shl(i % 8)) == 0;
  }

  /** The recount when a container is opened. */
  method CountFree(m: Map, n: nat) returns (free: nat)
    requires n <= MAX_DATA_BLOCKS
    ensures free == n - |Allocated(m, n)|
  {
    free := 0;
    for i := 0 to n
      invariant free == FreeCount(m, i)
    {
      var clear := TestBit(m, i);
      if clear { free := free + 1; }
    }
    FreeCountIsComplement(m, n);
  }

  /** The first-fit scan of the bitmap. */
  method Scan(m: Map, n: nat) returns (r: Option<nat>)
    requires n <= MAX_DATA_BLOCKS
    ensures r == FirstFree(m, 0, n)
  {
    for i := 0 to n
      invariant FirstFree(m, 0, n) == FirstFree(m, i, n)
    {
      var clear := TestBit(m, i);
      if clear { return Some(i); }
    }
    return None;
  }

  /** `open_existing`. */
  method Open(c: Cipher, key: Key, disk: seq<byte>) returns (r: Result<Vol>)
    ensures r == OpenExisting(c, key, disk)
  {
    if |disk| < BLOCK_SIZE { return Err(IoError); }
    match Superblock.Read(disk[..BLOCK_SIZE]) {
      case None => return Err(BadMagic);
      case Some(info) =>
        if info.keyHash != c.hash(key) { return Err(WrongKey); }
        if |disk| < DATA_OFF { return Err(IoError); }
        var m: Map := disk[BITMAP_OFF..DATA_OFF];
        if info.total < DATA_START || info.total > DATA_START + MAX_DATA_BLOCKS { return Err(OutOfRange); }
        var free := CountFree(m, info.total - DATA_START);
        FreeCountIsComplement(m, info.total - DATA_START);
        return Ok(Vol(disk, info.total, free, m));
    }
  }

  class Volume {
    var disk: seq<byte>
    var total: u64
    var free: u64
    var bitmap: Map
    const env: Env

    ghost function State(): Vol
      reads this
    {
      Vol(disk, total, free, bitmap)
    }

    ghost predicate Valid()
      reads this
    {
      IsEnv(env) && Shaped(State())
    }

    constructor (e: Env, v: Vol)
      requires IsEnv(e) && Shaped(v)
      ensures Valid() && env == e && State() == v
    {
      env := e;
      disk, total, free, bitmap := v.disk, v.total, v.free, v.bitmap;
    }

    method AllocateBlock(io: Io) returns (r: Result<u64>)
      requires Valid()
      modifies this
      ensures Valid() && (State(), r) == Allocate(old(State()), io)
    {
      if free == 0 { return Err(StorageFull); }
      var hit := Scan(bitmap, total - DATA_START);
      match hit {
        case None => return Err(Inconsistent);
        case Some(i) =>
          bitmap := SetBit(bitmap, i);
          free := Decrement(free);
          WriteBitmap(io);
          return if io.Done? then Ok(DATA_START + i) else Err(IoError);
      }
    }

    /** The whole bitmap is rewritten; nothing else in memory changes. */
    method WriteBitmap(io: Io)
      requires Valid()
      modifies this`disk
      ensures Valid() && State() == Persist(old(State()), io)
    {
      disk := Land(disk, BITMAP_OFF, bitmap, io);
    }

    method ReserveBlock(b: u64, io: Io) returns (r: Result<()>)
      requires Valid()
      modifies this
      ensures Valid() && (State(), r) == Reserve(old(State()), b, io)
    {
      if b < DATA_START || b >= total { return Err(InvalidInput); }
      var clear := TestBit(bitmap, b - DATA_START);
      if !clear { return Ok(()); }
      bitmap := SetBit(bitmap, b - DATA_START);
      free := Decrement(free);
      WriteBitmap(io);
      return if io.Done? then Ok(()) else Err(IoError);
    }

    method FreeDataBlock(b: u64, io: Io) returns (r: Result<()>)
      requires Valid()
      modifies this
      ensures Valid() && (State(), r) == FreeBlock(old(State()), b, io)
    {
      if b < DATA_START || b >= total { return Err(InvalidInput); }
      var clear := TestBit(bitmap, b - DATA_START);
      if clear { return Err(AlreadyFree); }
      bitmap := ClearBit(bitmap, b - DATA_START);
      free := Increment(free);
      WriteBitmap(io);
      return if io.Done? then Ok(()) else Err(IoError);
    }

    /** Nonce and ciphertext go to the block's own 4096 bytes. */
    method WriteDataBlock(b: u64, p: Payload, n: Nonce, io: Io) returns (r: Result<()>)
      requires Valid()
      modifies this`disk
      ensures Valid() && |SealBlock(env.c, env.key, b, p, n)| == BLOCK_SIZE
      ensures (State(), r) == WriteBlock(env.c, env.key, old(State()), b, p, n, io)
    {
      OpenSeal(env.c, env.key, b, p, n);
      if b < DATA_START || b >= total { return Err(InvalidInput); }
      disk := Land(disk, b * BLOCK_SIZE, n + env.c.seal(env.c.blockKey(env.key, b), n, p), io);
      return if io.Done? then Ok(()) else Err(IoError);
    }

    method ReadDataBlock(b: u64) returns (r: Result<seq<byte>>)
      requires Valid()
      ensures r == ReadBlock(env.c, env.key, State(), b)
      ensures r.Ok? ==> |r.value| == PAYLOAD_SIZE
    {
      if b < DATA_START || b >= total { return Err(InvalidInput); }
      var raw := disk[b * BLOCK_SIZE..(b + 1) * BLOCK_SIZE];
      var text := env.c.open(env.c.blockKey(env.key, b), raw[..NONCE_SIZE], raw[NONCE_SIZE..]);
      match text {
        case None => return Err(DecryptFailed);
        case Some(p) => return Ok(p);
      }
    }
  }

  function ItemsOf(data: seq<byte>, nonces: seq<Nonce>, ios: seq<Io>): (items: seq<Item>)
    requires |data| == |nonces| * PAYLOAD_SIZE && |ios| == |nonces|
    ensures |items| == |nonces|
    ensures forall i :: 0 <= i < |items| ==> items[i] == Item(Chunk(data, i), nonces[i], ios[i])
  {
    seq(|nonces|, i requires 0 <= i < |nonces| => Item(Chunk(data, i), nonces[i], ios[i]))
  }

  /** The loop stops where the count says. */
  lemma {:induction false} BatchStops(total: u64, b: nat, items: seq<Item>, c: nat)
    requires c <= |items| && (c > 0 ==> DATA_START <= b && b + c <= total)
    requires forall i :: 0 <= i < c ==> items[i].io.Done?
    requires c == |items| || !(DATA_START <= b + c < total) || !items[c].io.Done?
    ensures Written(total, b, items) == c
    decreases c
  {
    if c > 0 { BatchStops(total, b + 1, items[1..], c - 1); }
  }

  /** What the loop leaves when it stops at a failed write. */
  lemma StoppedState(e: Env, v: Vol, b: u64, items: seq<Item>, c: nat, w: Vol)
    requires IsEnv(e) && Shaped(v) && c < |items| && (c > 0 ==> DATA_START <= b && b + c <= v.total)
    requires forall i :: 0 <= i < c ==> items[i].io.Done?
    requires !InRange(v, b + c) || !items[c].io.Done?
    requires b + c < U64_LIMIT && w == PutOne(e, Puts(e, v, b, items, c), b + c, items[c])
    ensures w == WriteFrom(e, v, b, items) && c == Written(v.total, b, items)
  {
    BatchStops(v.total, b, items, c);
    if !InRange(v, b + c) {
      assert w == Puts(e, v, b, items, c);
    } else {
      assert w == Puts(e, v, b, items, c + 1);
    }
  }

  /** What it leaves when it comes to the end. */
  lemma CompletedState(e: Env, v: Vol, b: u64, items: seq<Item>)
    requires IsEnv(e) && Shaped(v) && (items != [] ==> DATA_START <= b && b + |items| <= v.total)
    requires forall i :: 0 <= i < |items| ==> items[i].io.Done?
    ensures b + |items| <= U64_LIMIT && Puts(e, v, b, items, |items|) == WriteFrom(e, v, b, items)
    ensures Written(v.total, b, items) == |items|
  {
    BatchStops(v.total, b, items, |items|);
  }

  /** `write_vault_blocks`; the running index stays a 64-bit word. */
  method WriteVaultBlocks(v: Volume, start: u64, data: seq<byte>, nonces: seq<Nonce>, ios: seq<Io>)
    returns (c: nat)
    requires v.Valid() && |data| == |nonces| * PAYLOAD_SIZE && |ios| == |nonces| < U32_LIMIT
    modifies v
    ensures v.Valid() && c == Written(old(v.total), start, ItemsOf(data, nonces, ios))
    ensures v.State() == WriteFrom(v.env, old(v.State()), start, ItemsOf(data, nonces, ios))
  {
    hide PutOne, Lawful, Written, WriteFrom, Chunk, ItemsOf;
    ghost var items, s := ItemsOf(data, nonces, ios), v.State();
    c := 0;
    while c < |nonces|
      invariant c <= |nonces| && v.Valid() && (c > 0 ==> DATA_START <= start && start + c <= s.total)
      invariant v.State() == Puts(v.env, s, start, items, c)
      invariant forall i :: 0 <= i < c ==> items[i].io.Done?
    {
      var ok := WriteItem(v, start + c, Chunk(data, c), nonces[c], ios[c]);
      if !ok {
        StoppedState(v.env, s, start, items, c, v.State());
        return;
      }
      c := c + 1;
    }
    CompletedState(v.env, s, start, items);
  }

  /** One iteration: `write_block(..).is_ok()`. */
  method WriteItem(v: Volume, b: u64, p: Payload, n: Nonce, io: Io) returns (ok: bool)
    requires v.Valid()
    modifies v`disk
    ensures v.Valid() && v.State() == PutOne(v.env, old(v.State()), b, Item(p, n, io))
    ensures ok <==> InRange(v.State(), b) && io.Done?
  {
    var r := v.WriteDataBlock(b, p, n, io);
    ok := r.Ok?;
  }

  /** `copy_from_slice` into the c-th slot of a buffer. */
  method CopyChunk(out: array<byte>, c: nat, p: Payload)
    requires (c + 1) * PAYLOAD_SIZE <= out.Length
    modifies out
    ensures Chunk(out[..], c) == p
    ensures forall i :: 0 <= i < c ==> Chunk(out[..], i) == Chunk(old(out[..]), i)
    ensures out[(c + 1) * PAYLOAD_SIZE..] == old(out[(c + 1) * PAYLOAD_SIZE..])
  {
    forall k | 0 <= k < PAYLOAD_SIZE { out[c * PAYLOAD_SIZE + k] := p[k]; }
    assert forall k :: 0 <= k < c * PAYLOAD_SIZE ==> out[k] == old(out[k]);
  }

  /** One iteration: the block is stored, or it cannot be read. */
  method ReadItem(v: Volume, b: u64) returns (r: Option<Payload>)
    requires v.Valid()
    ensures r.Some? ==> Stores(v.env, v.State(), b, r.value)
    ensures r.None? ==> !Readable(v.env, v.State(), b)
  {
    var q := v.ReadDataBlock(b);
    r := if q.Ok? then Some(q.value) else None;
  }

  /** `read_vault_blocks`: the blocks read fill the front of the caller's buffer and no more. */
  method ReadVaultBlocks(v: Volume, start: u64, n: nat, out: array<byte>) returns (c: nat)
    requires v.Valid() && out.Length == n * PAYLOAD_SIZE && n < U32_LIMIT
    modifies out
    ensures ReadsInto(v.env, v.State(), start, n, c, out[..])
    ensures out[c * PAYLOAD_SIZE..] == old(out[c * PAYLOAD_SIZE..])
  {
    c := 0;
    while c < n
      invariant c <= n && v.Valid() && v.State() == old(v.State()) && (c > 0 ==> start + c <= v.total)
      invariant forall i :: 0 <= i < c ==> Stores(v.env, v.State(), start + i, Chunk(out[..], i))
      invariant out[c * PAYLOAD_SIZE..] == old(out[c * PAYLOAD_SIZE..])
    {
      var r := ReadItem(v, start + c);
      if r.None? { break; }
      CopyChunk(out, c, r.value);
      c := c + 1;
    }
  }

  /** `secure_erase_block`: overwrite with noise, then free; the free is not tried if the write fails. */
  method SecureEraseBlock(v: Volume, b: u64, noise: Payload, n: Nonce, io: Io, io': Io) returns (code: u32)
    requires v.Valid()
    modifies v
    ensures v.Valid()
    ensures var s := old(v.State());
            var w := PutOne(v.env, s, b, Item(noise, n, io));
            if !InRange(s, b) || !io.Done? then v.State() == w && code == 3
            else v.State() == FreeBlock(w, b, io').0 && code == if FreeBlock(w, b, io').1.Ok? then 0 else 3
  {
    var ok := WriteItem(v, b, noise, n, io);
    if !ok { return 3; }
    var q := v.FreeDataBlock(b, io');
    return if q.Ok? then 0 else 3;
  }

  /** An erase that succeeds leaves the block free and holding noise, and every other block as it was. */
  lemma EraseErases(e: Env, v: Vol, b: u64, it: Item, x: nat)
    requires IsEnv(e) && Good(e, v) && InRange(v, b) && IsSet(v.bitmap, b - DATA_START)
    requires it.io.Done? && InRange(v, x)
    ensures var w := FreeBlock(PutOne(e, v, b, it), b, Done).0;
            && Good(e, w) && !IsSet(w.bitmap, b - DATA_START) && w.free == v.free + 1
            && (if x == b then Stores(e, w, b, it.p) else RawBlock(w, x) == RawBlock(v, x))
  {
    hide PutOne, Lawful, Stamped, ClearFrom;
    var u := PutOne(e, v, b, it);
    PutOneFrame(e, v, b, it);
    PutOneStores(e, v, b, it);
    GoodRelease(e, u, b - DATA_START, Done);
    ClearBitIsSet(u.bitmap, b - DATA_START, b - DATA_START);
    DropFrame(e, u, b, x);
    DropFrame(e, u, b, b);
  }

  lemma DropFrame(e: Env, v: Vol, b: u64, x: nat)
    requires IsEnv(e) && Good(e, v) && InRange(v, x)
    ensures var w := FreeBlock(v, b, Done).0; Shaped(w) && InRange(w, x) && RawBlock(w, x) == RawBlock(v, x)
  {
    BlockFrame(e, v, Drop(b, Done), x);
  }

  /** `init_canary_slots`; `items` carries the random filler, the nonces and the outcomes of the writes. */
  method InitCanarySlots(v: Volume, ios: seq<Io>, items: seq<Item>) returns (code: u32)
    requires v.Valid() && |ios| == 6 && CanaryItems(items)
    modifies v
    ensures v.Valid() && (v.State(), code) == InitCanary(v.env, old(v.State()), ios, items)
  {
    hide PutOne, Lawful, Reserve;
    ghost var s := v.State();
    for c := 0 to 6
      invariant v.Valid() && v.State() == Reserves(s, ios, c)
    {
      var ignored := v.ReserveBlock(FIRST_RESERVED + c, ios[c]);
    }
    ghost var held := v.State();
    for c := 0 to 5
      invariant v.Valid() && v.total == s.total && v.State() == Puts(v.env, held, FIRST_CANARY, items, c)
      invariant forall i :: 0 <= i < c ==> items[i].io.Done?
      invariant c > 0 ==> FIRST_CANARY + c <= v.total
    {
      var filler := items[c].p[8..];
      var ok := WriteItem(v, FIRST_CANARY + c, CanaryPayload(c, filler), items[c].n, items[c].io);
      if !ok {
        StoppedState(v.env, held, FIRST_CANARY, items, c, v.State());
        return 2;
      }
    }
    BatchStops(v.total, FIRST_CANARY, items, 5);
    return 0;
  }

  /** The loop of `validate_canary_slots`. */
  method CheckCanarySlots(v: Volume) returns (code: u32)
    requires v.Valid()
    ensures code == Validate(v.env.c, v.env.key, v.State(), FIRST_CANARY)
  {
    var b: u64 := FIRST_CANARY;
    while b < 1000
      invariant FIRST_CANARY <= b <= 1000
      invariant Validate(v.env.c, v.env.key, v.State(), FIRST_CANARY) == Validate(v.env.c, v.env.key, v.State(), b)
    {
      var r := v.ReadDataBlock(b);
      if r.Err? || !IsCanary(r.value) { return 2; }
      b := b + 1;
    }
    return 0;
  }

  /** The process-wide flag behind `canary_slots_intact`. */
  class CanaryFlag {
    var intact: bool

    constructor ()
      ensures !intact
    {
      intact := false;
    }
  }

  /** `validate_canary_slots`: success raises the flag, and nothing ever lowers it. */
  method ValidateCanarySlots(v: Volume, flag: CanaryFlag) returns (code: u32)
    requires v.Valid()
    modifies flag
    ensures code == Validate(v.env.c, v.env.key, v.State(), FIRST_CANARY)
    ensures flag.intact == (old(flag.intact) || code == 0)
  {
    code := CheckCanarySlots(v);
    if code == 0 { flag.intact := true; }
  }
}
