/**
 The vault container as values: every operation of `VirtualVolume` as a function of the old volume
 and of how the operating system's writes went (`secure_core/src/virtual_volume.rs`).

 File layout: block 0 is the superblock, blocks 1 to 8 the bitmap, blocks from 9 on the data, each
 stored as a 12-byte nonce, a ciphertext and a 16-byte tag.
 */
module Vault {
  import opened Bytes
  import opened Bitmap
  import opened Storage
  import Superblock

  const BLOCK_SIZE := 4096
  const PAYLOAD_SIZE := 4068
  const NONCE_SIZE := 12
  const DATA_START := 9
  const BITMAP_OFF := 4096
  const DATA_OFF := 36864

  type Payload = p: seq<byte> | |p| == PAYLOAD_SIZE witness Superblock.Zeros(PAYLOAD_SIZE)
  type Nonce = n: seq<byte> | |n| == NONCE_SIZE witness Superblock.Zeros(NONCE_SIZE)
  type Key = k: seq<byte> | |k| == 32 witness Superblock.Zeros(32)

  /** ChaCha20-Poly1305, the per-block key derivation and SHA-256, as some functions. */
  datatype Cipher = Cipher(
    seal: (Key, Nonce, seq<byte>) -> seq<byte>,
    open: (Key, Nonce, seq<byte>) -> Option<seq<byte>>,
    blockKey: (Key, nat) -> Key,
    hash: Key -> Superblock.Hash32)

  /** The one law the vault relies on: sealing fills the block and opening undoes it. */
  ghost predicate Lawful(c: Cipher) {
    && (forall k: Key, n: Nonce, p: seq<byte> :: |p| == PAYLOAD_SIZE ==>
          |c.seal(k, n, p)| == BLOCK_SIZE - NONCE_SIZE && c.open(k, n, c.seal(k, n, p)) == Some(p))
    && (forall k: Key, n: Nonce, s: seq<byte> :: c.open(k, n, s).Some? ==> |c.open(k, n, s).value| + 16 == |s|)
  }

  /** The law can be met. */
  lemma LawfulExists() returns (c: Cipher)
    ensures Lawful(c)
  {
    c := Cipher((k, n, p) => p + Superblock.Zeros(16),
                (k, n, s) => if |s| >= 16 then Some(s[..|s| - 16]) else None,
                (k, i) => k, k => k);
    forall k: Key, n: Nonce, p: seq<byte> | |p| == PAYLOAD_SIZE
      ensures c.open(k, n, c.seal(k, n, p)) == Some(p)
    {
      assert (p + Superblock.Zeros(16))[..|p|] == p;
    }
  }

  /** An open volume: the file, and what is kept in memory. */
  datatype Vol = Vol(disk: seq<byte>, total: u64, free: u64, bitmap: Map)

  datatype Error = InvalidInput | StorageFull | Inconsistent | AlreadyFree | IoError | DecryptFailed
                 | BadMagic | WrongKey | OutOfRange
  datatype Result<+T> = Ok(value: T) | Err(error: Error)

  /** What opening a container can rely on: the sizes agree. */
  predicate Shaped(v: Vol) {
    && DATA_START <= v.total <= DATA_START + MAX_DATA_BLOCKS
    && |v.disk| == v.total * BLOCK_SIZE
  }

  function DataBlocks(v: Vol): nat
    requires Shaped(v)
  {
    v.total - DATA_START
  }

  predicate InRange(v: Vol, b: nat) {
    DATA_START <= b < v.total
  }

  function DiskMap(v: Vol): Map
    requires Shaped(v)
  {
    v.disk[BITMAP_OFF..DATA_OFF]
  }

  /** `write_bitmap`: the whole bitmap is rewritten in place. */
  function Persist(v: Vol, io: Io): (r: Vol)
    requires Shaped(v)
    ensures Shaped(r)
  {
    v.(disk := Land(v.disk, BITMAP_OFF, v.bitmap, io))
  }

  function Decrement(n: u64): (r: u64)
    ensures (r + 1) % U64_LIMIT == n
  {
    if n == 0 then U64_LIMIT - 1 else n - 1
  }

  function Increment(n: u64): (r: u64)
    ensures Decrement(r) == n
  {
    if n == U64_LIMIT - 1 then 0 else n + 1
  }

  /** The bit is set and the count lowered before the write is attempted, and stay so if it fails. */
  function Take(v: Vol, i: nat, io: Io): (r: Vol)
    requires Shaped(v) && i < DataBlocks(v)
    ensures Shaped(r)
  {
    Persist(v.(bitmap := SetBit(v.bitmap, i), free := Decrement(v.free)), io)
  }

  function Allocate(v: Vol, io: Io): (Vol, Result<u64>)
    requires Shaped(v)
  {
    if v.free == 0 then (v, Err(StorageFull))
    else match FirstFree(v.bitmap, 0, DataBlocks(v))
      case None => (v, Err(Inconsistent))
      case Some(i) => (Take(v, i, io), if io.Done? then Ok(DATA_START + i) else Err(IoError))
  }

  function Reserve(v: Vol, b: u64, io: Io): (Vol, Result<()>)
    requires Shaped(v)
  {
    if !InRange(v, b) then (v, Err(InvalidInput))
    else if IsSet(v.bitmap, b - DATA_START) then (v, Ok(()))
    else (Take(v, b - DATA_START, io), if io.Done? then Ok(()) else Err(IoError))
  }

  function Release(v: Vol, i: nat, io: Io): (r: Vol)
    requires Shaped(v) && i < DataBlocks(v)
    ensures Shaped(r)
  {
    Persist(v.(bitmap := ClearBit(v.bitmap, i), free := Increment(v.free)), io)
  }

  function FreeBlock(v: Vol, b: u64, io: Io): (Vol, Result<()>)
    requires Shaped(v)
  {
    if !InRange(v, b) then (v, Err(InvalidInput))
    else if !IsSet(v.bitmap, b - DATA_START) then (v, Err(AlreadyFree))
    else (Release(v, b - DATA_START, io), if io.Done? then Ok(()) else Err(IoError))
  }

  function SealBlock(c: Cipher, key: Key, b: nat, p: Payload, n: Nonce): (raw: seq<byte>)
  {
    n + c.seal(c.blockKey(key, b), n, p)
  }

  function OpenBlock(c: Cipher, key: Key, b: nat, raw: seq<byte>): Option<seq<byte>>
    requires |raw| == BLOCK_SIZE
  {
    c.open(c.blockKey(key, b), raw[..NONCE_SIZE], raw[NONCE_SIZE..])
  }

  lemma OpenSeal(c: Cipher, key: Key, b: nat, p: Payload, n: Nonce)
    requires Lawful(c)
    ensures |SealBlock(c, key, b, p, n)| == BLOCK_SIZE
    ensures OpenBlock(c, key, b, SealBlock(c, key, b, p, n)) == Some(p)
  {
    var raw := SealBlock(c, key, b, p, n);
    assert raw[..NONCE_SIZE] == n && raw[NONCE_SIZE..] == c.seal(c.blockKey(key, b), n, p);
  }

  function WriteBlock(c: Cipher, key: Key, v: Vol, b: u64, p: Payload, n: Nonce, io: Io): (Vol, Result<()>)
    requires Shaped(v)
    requires |SealBlock(c, key, b, p, n)| == BLOCK_SIZE
  {
    if !InRange(v, b) then (v, Err(InvalidInput))
    else (v.(disk := Land(v.disk, b * BLOCK_SIZE, SealBlock(c, key, b, p, n), io)),
          if io.Done? then Ok(()) else Err(IoError))
  }

  function RawBlock(v: Vol, b: nat): (raw: seq<byte>)
    requires Shaped(v) && InRange(v, b)
    ensures |raw| == BLOCK_SIZE
  {
    v.disk[b * BLOCK_SIZE..(b + 1) * BLOCK_SIZE]
  }

  function ReadBlock(c: Cipher, key: Key, v: Vol, b: u64): Result<seq<byte>>
    requires Shaped(v)
  {
    if !InRange(v, b) then Err(InvalidInput)
    else match OpenBlock(c, key, b, RawBlock(v, b))
      case None => Err(DecryptFailed)
      case Some(p) => Ok(p)
  }

  // ---- opening and creating ------------------------------------------------------------

  /** `open_existing`: the free count in the superblock is not trusted. */
  function OpenExisting(c: Cipher, key: Key, disk: seq<byte>): Result<Vol> {
    if |disk| < BLOCK_SIZE then Err(IoError)
    else match Superblock.Read(disk[..BLOCK_SIZE])
      case None => Err(BadMagic)
      case Some(info) =>
        if info.keyHash != c.hash(key) then Err(WrongKey)
        else if |disk| < DATA_OFF then Err(IoError)
        else if info.total < DATA_START || info.total > DATA_START + MAX_DATA_BLOCKS then Err(OutOfRange)
        else
          var m := disk[BITMAP_OFF..DATA_OFF];
          Ok(Vol(disk, info.total, FreeCount(m, info.total - DATA_START), m))
  }

  function CreateNew(c: Cipher, key: Key, n: nat): (v: Vol)
    requires n <= MAX_DATA_BLOCKS
    ensures Shaped(v)
  {
    var total := DATA_START + n;
    var image := Superblock.Write(Superblock.Info(Superblock.VAULT_VERSION, total, n, c.hash(key)));
    var blank := Superblock.Zeros(total * BLOCK_SIZE);
    var disk := Land(Land(blank, 0, image, Done), BITMAP_OFF, Empty(), Done);
    Vol(disk, total, n, Empty())
  }

  /** A missing or zero-byte file is created, any other is opened. */
  function OpenOrCreate(c: Cipher, key: Key, file: Option<seq<byte>>, n: u64): Result<Vol> {
    if n > MAX_DATA_BLOCKS then Err(InvalidInput)
    else if file.Some? && file.value != [] then OpenExisting(c, key, file.value)
    else Ok(CreateNew(c, key, n))
  }

  /** Why a file is refused: the first of these that applies, in this order. */
  ghost predicate Refuses(c: Cipher, key: Key, disk: seq<byte>, e: Error) {
    match e
    case IoError => |disk| < BLOCK_SIZE || (|disk| < DATA_OFF && Magic(disk) && KeyMatches(c, key, disk))
    case BadMagic => |disk| >= BLOCK_SIZE && !Magic(disk)
    case WrongKey => |disk| >= BLOCK_SIZE && Magic(disk) && !KeyMatches(c, key, disk)
    case OutOfRange => |disk| >= DATA_OFF && Magic(disk) && KeyMatches(c, key, disk) && !SaneTotal(disk)
    case _ => false
  }

  /** The first four bytes are the container's mark. */
  predicate Magic(disk: seq<byte>) {
    |disk| >= BLOCK_SIZE && disk[..4] == [0x33, 0x43, 0x45, 0x53]
  }

  /** Bytes 24 to 56 are the hash of the key. */
  predicate KeyMatches(c: Cipher, key: Key, disk: seq<byte>) {
    |disk| >= BLOCK_SIZE && disk[24..56] == c.hash(key)
  }

  /** The number of blocks, in bytes 8 to 16, is one the bitmap can describe. */
  predicate SaneTotal(disk: seq<byte>) {
    |disk| >= BLOCK_SIZE && DATA_START <= FromLE(disk[8..16]) <= DATA_START + MAX_DATA_BLOCKS
  }

  /** The volume a file describes: its number of blocks, its bitmap, and the count of free blocks. */
  ghost predicate Loads(disk: seq<byte>, v: Vol) {
    && |disk| >= 36864 && DATA_START <= v.total <= DATA_START + MAX_DATA_BLOCKS
    && v.disk == disk && v.total == FromLE(disk[8..16]) && v.bitmap == disk[4096..36864]
    && v.free == v.total - DATA_START - |Allocated(v.bitmap, v.total - DATA_START)|
  }

  lemma MagicBytes(s: seq<byte>)
    requires |s| == 4
    ensures FromLE(s) == Superblock.SUPERBLOCK_MAGIC <==> s == [0x33, 0x43, 0x45, 0x53]
  {
    var m: seq<byte> := [0x33, 0x43, 0x45, 0x53];
    assert m[1..] == [0x43, 0x45, 0x53] && m[1..][1..] == [0x45, 0x53] && m[1..][1..][1..] == [0x53];
    assert m[1..][1..][1..][1..] == [];
    assert FromLE(m) == Superblock.SUPERBLOCK_MAGIC;
    if FromLE(s) == Superblock.SUPERBLOCK_MAGIC {
      EncodeDecode(s);
      EncodeDecode(m);
    }
  }

  /**
   Opening any file: it is refused for exactly one stated reason, or yields the number of blocks it
   names, the bitmap it holds and the count of that bitmap's free blocks, and leaves the file alone.
   */
  lemma OpenExactly(c: Cipher, key: Key, disk: seq<byte>)
    ensures var r := OpenExisting(c, key, disk);
            && (forall e: Error :: r == Err(e) <==> Refuses(c, key, disk, e))
            && (r.Ok? <==> |disk| >= DATA_OFF && Magic(disk) && KeyMatches(c, key, disk) && SaneTotal(disk))
            && (r.Ok? ==> Loads(disk, r.value))
  {
    hide FreeCount, FromLE, Allocated;
    if |disk| >= BLOCK_SIZE {
      var head := disk[..BLOCK_SIZE];
      assert head[0..4] == disk[..4] && head[8..16] == disk[8..16] && head[24..56] == disk[24..56];
      MagicBytes(head[0..4]);
      if OpenExisting(c, key, disk).Ok? {
        var v := OpenExisting(c, key, disk).value;
        FreeCountIsComplement(v.bitmap, v.total - DATA_START);
      }
    }
  }

  /**
   Opening or creating: too many blocks are refused whatever the file is; otherwise a missing or empty
   file, and no other, becomes a new container, and any other file is opened as it is, whatever number
   of blocks was asked for.
   */
  lemma OpenOrCreateExactly(c: Cipher, key: Key, file: Option<seq<byte>>, n: u64)
    ensures var r := OpenOrCreate(c, key, file, n);
            && (r == Err(InvalidInput) <==> n > MAX_DATA_BLOCKS)
            && (n <= MAX_DATA_BLOCKS && (file == None || file == Some([])) ==>
                  r.Ok? && r.value.total == DATA_START + n && r.value.free == n)
            && (n <= MAX_DATA_BLOCKS && file.Some? && file.value != [] ==>
                  (r.Ok? ==> Loads(file.value, r.value)) && forall e: Error :: r == Err(e) <==> Refuses(c, key, file.value, e))
  {
    if file.Some? { OpenExactly(c, key, file.value); }
  }

  /** Reading: exactly when it succeeds and with which error it fails. */
  lemma ReadExactly(c: Cipher, key: Key, v: Vol, b: u64)
    requires Shaped(v)
    ensures var r := ReadBlock(c, key, v, b);
            && (r == Err(InvalidInput) <==> b < 9 || b >= v.total)
            && (r == Err(DecryptFailed) <==> 9 <= b < v.total && OpenBlock(c, key, b, RawBlock(v, b)) == None)
            && (r.Err? ==> r.error in {InvalidInput, DecryptFailed})
            && (r.Ok? ==> 9 <= b < v.total && OpenBlock(c, key, b, RawBlock(v, b)) == Some(r.value))
  {
  }

  /**
   A block is sealed under its own key, after its nonce: what opens its bytes in the place of another
   block is what the cipher makes of that block's key.
   */
  lemma MovedBlock(c: Cipher, key: Key, b: nat, b': nat, p: Payload, n: Nonce)
    requires Lawful(c)
    ensures |SealBlock(c, key, b, p, n)| == BLOCK_SIZE && SealBlock(c, key, b, p, n)[..NONCE_SIZE] == n
    ensures OpenBlock(c, key, b', SealBlock(c, key, b, p, n)) ==
            c.open(c.blockKey(key, b'), n, c.seal(c.blockKey(key, b), n, p))
  {
    OpenSeal(c, key, b, p, n);
    var raw := SealBlock(c, key, b, p, n);
    assert raw[..NONCE_SIZE] == n && raw[NONCE_SIZE..] == c.seal(c.blockKey(key, b), n, p);
  }
}
