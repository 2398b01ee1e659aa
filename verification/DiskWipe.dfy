/** The two-pass overwrite and truncation of `secure_core/src/disk_wipe.rs`. */
module DiskWipe {
  import opened Bytes
  import opened Bitmap
  import opened Storage
  import opened Vault
  import opened VaultRuns
  import Superblock

  const WIPE_CHUNK := 4096

  /** Every chunk of a pass over n bytes was written. */
  ghost predicate PassDone(n: nat, io: nat -> Io) {
    forall c: nat :: c * WIPE_CHUNK < n ==> io(c).Done?
  }

  /**
   One overwrite pass, chunk by chunk. `io(k)` is how the write of chunk k goes; the pass stops at
   the first failure. `done` is the length of the front that is known to hold the new bytes.
   */
  method Overwrite(file: array<byte>, next: seq<byte>, io: nat -> Io) returns (ok: bool, done: nat)
    requires |next| == file.Length
    modifies file
    ensures done <= file.Length && (ok <==> done == file.Length)
    ensures ok ==> file[..] == next
    ensures ok <==> PassDone(file.Length, io)
    ensures !ok ==> done % WIPE_CHUNK == 0 && !io(done / WIPE_CHUNK).Done? && PassDone(done, io)
    ensures forall j :: 0 <= j < done ==> file[j] == next[j]
    ensures forall j :: 0 <= j < file.Length ==> file[j] == next[j] || file[j] == old(file[j])
    ensures forall j :: done + WIPE_CHUNK <= j < file.Length ==> file[j] == old(file[j])
  {
    var remaining: nat, k: nat := file.Length, 0;
    done := 0;
    while remaining > 0
      invariant remaining + done == file.Length && (remaining > 0 ==> done == k * WIPE_CHUNK)
      invariant PassDone(done, io)
      invariant forall j :: 0 <= j < done ==> file[j] == next[j]
      invariant forall j :: done <= j < file.Length ==> file[j] == old(file[j])
    {
      var take := if remaining < WIPE_CHUNK then remaining else WIPE_CHUNK;
      WriteChunk(file, done, next[done..done + take], io(k));
      if !io(k).Done? {
        assert done / WIPE_CHUNK == k && done % WIPE_CHUNK == 0;
        return false, done;
      }
      assert forall c: nat :: c * WIPE_CHUNK < done + take ==> c <= k;
      remaining := remaining - take;
      done := done + take;
      k := k + 1;
    }
    ok := true;
  }

  /** `write_all` at a position: the bytes that landed are new, everything else is as it was. */
  method WriteChunk(file: array<byte>, off: nat, data: seq<byte>, io: Io)
    requires off + |data| <= file.Length
    modifies file
    ensures file[..] == Land(old(file[..]), off, data, io)
  {
    forall j | off <= j < off + |data| && Landed(io, j - off) { file[j] := data[j - off]; }
  }

  datatype Outcome =
    | Purged
    | NotOpened
    | FirstPassFailed | FirstFlushFailed
    | SecondPassFailed | SecondFlushFailed
    | NotTruncated | LastFlushFailed

  /** How the calls other than writes went: reading the size, opening, the three flushes, truncation. */
  datatype Calls = Calls(stat: bool, access: bool, flush1: bool, flush2: bool, truncated: bool, flush3: bool)

  predicate AllSucceed(c: Calls) {
    c.stat && c.access && c.flush1 && c.flush2 && c.truncated && c.flush3
  }

  /** What each outcome says went well before it, and what then did not. */
  ghost predicate Explains(outcome: Outcome, n: nat, io1: nat -> Io, io2: nat -> Io, c: Calls) {
    var first := c.stat && n > 0 && c.access && PassDone(n, io1);
    var second := first && c.flush1 && PassDone(n, io2);
    match outcome
    case NotOpened => !c.stat || (n > 0 && !c.access)
    case FirstPassFailed => c.stat && n > 0 && c.access && !PassDone(n, io1)
    case FirstFlushFailed => first && !c.flush1
    case SecondPassFailed => first && c.flush1 && !PassDone(n, io2)
    case SecondFlushFailed => second && !c.flush2
    case NotTruncated => second && c.flush2 && !c.truncated
    case LastFlushFailed => second && c.flush2 && c.truncated && !c.flush3
    case Purged => (c.stat && n == 0) || (second && c.flush2 && c.truncated && c.flush3)
  }

  /**
   `purge_entire_vault` on a container's bytes; `length` is the length of the file afterwards. An
   empty container is left as it is. Success leaves nothing, and every byte was zero when it was cut
   off. Once the first pass is through, no failure leaves a byte of the old contents.
   */
  method Purge(file: array<byte>, noise: seq<byte>, io1: nat -> Io, io2: nat -> Io, calls: Calls)
    returns (outcome: Outcome, length: nat)
    requires |noise| == file.Length
    modifies file
    ensures length == if outcome in {Purged, LastFlushFailed} then 0 else file.Length
    ensures Explains(outcome, file.Length, io1, io2, calls)
    ensures outcome in {Purged, SecondFlushFailed, NotTruncated, LastFlushFailed} ==>
              forall j :: 0 <= j < file.Length ==> file[j] == 0
    ensures outcome == SecondPassFailed ==> forall j :: 0 <= j < file.Length ==> file[j] == 0 || file[j] == noise[j]
    ensures outcome == FirstFlushFailed ==> file[..] == noise
    ensures outcome == FirstPassFailed ==>
              forall j :: 0 <= j < file.Length ==> file[j] == noise[j] || file[j] == old(file[j])
    ensures outcome == NotOpened ==> file[..] == old(file[..])
    ensures AllSucceed(calls) && (forall k: nat :: io1(k).Done? && io2(k).Done?) ==> outcome == Purged
  {
    if !calls.stat { return NotOpened, file.Length; }
    if file.Length == 0 { return Purged, 0; }
    if !calls.access { return NotOpened, file.Length; }
    var ok, done := Overwrite(file, noise, io1);
    if !ok { return FirstPassFailed, file.Length; }
    if !calls.flush1 { return FirstFlushFailed, file.Length; }
    ok, done := Overwrite(file, Superblock.Zeros(file.Length), io2);
    if !ok { return SecondPassFailed, file.Length; }
    if !calls.flush2 { return SecondFlushFailed, file.Length; }
    if !calls.truncated { return NotTruncated, file.Length; }
    if !calls.flush3 { return LastFlushFailed, 0; }
    return Purged, 0;
  }

  /** A container with nothing in it: n free blocks and, past the superblock, only zero bytes. */
  ghost predicate Blank(e: Env, v: Vol, n: nat)
    requires IsEnv(e)
  {
    && Good(e, v) && Synced(v) && v.total == DATA_START + n && v.free == n
    && n <= MAX_DATA_BLOCKS && Allocated(v.bitmap, n) == {}
    && forall k :: BLOCK_SIZE <= k < |v.disk| ==> v.disk[k] == 0
  }

  lemma CreatedBlank(e: Env, n: nat)
    requires IsEnv(e) && n <= MAX_DATA_BLOCKS
    ensures Blank(e, CreateNew(e.c, e.key, n), n)
  {
    var v := CreateNew(e.c, e.key, n);
    GoodCreate(e, n);
    CreatedHead(e, n);
    EmptyIsClear(n);
    forall k | BLOCK_SIZE <= k < |v.disk| ensures v.disk[k] == 0 {
      if k < DATA_OFF {
        assert v.disk[k] == DiskMap(v)[k - BITMAP_OFF];
      } else {
        assert v.disk[k] == v.disk[DATA_OFF..][k - DATA_OFF];
      }
    }
  }

  /**
   Purge a container, then open what is left of the file. After a purge that cut the file off, even
   if the last flush failed, the result is a blank container whatever the old one held and under any
   key; a file that was overwritten but not cut off does not open.
   */
  method PurgeThenOpen(e: Env, file: array<byte>, noise: seq<byte>, io1: nat -> Io, io2: nat -> Io, calls: Calls, n: u64)
    returns (outcome: Outcome, r: Result<Vol>)
    requires IsEnv(e) && n <= MAX_DATA_BLOCKS && |noise| == file.Length
    modifies file
    ensures outcome in {Purged, LastFlushFailed} ==> r.Ok? && Blank(e, r.value, n)
    ensures outcome in {SecondFlushFailed, NotTruncated} ==> r.Err?
    ensures AllSucceed(calls) && (forall k: nat :: io1(k).Done? && io2(k).Done?) ==> outcome == Purged
  {
    var length;
    outcome, length := Purge(file, noise, io1, io2, calls);
    r := OpenOrCreate(e.c, e.key, Some(file[..length]), n);
    CreatedBlank(e, n);
    if outcome in {SecondFlushFailed, NotTruncated} { ZerosDoNotOpen(e, file[..length]); }
  }

  lemma {:induction false} ZeroWord(s: seq<byte>)
    requires forall k :: 0 <= k < |s| ==> s[k] == 0
    ensures FromLE(s) == 0
  {
    if s != [] { ZeroWord(s[1..]); }
  }

  lemma ZerosDoNotOpen(e: Env, disk: seq<byte>)
    requires forall k :: 0 <= k < |disk| ==> disk[k] == 0
    ensures OpenExisting(e.c, e.key, disk).Err?
  {
    if |disk| >= BLOCK_SIZE { ZeroWord(disk[..BLOCK_SIZE][0..4]); }
  }
}
