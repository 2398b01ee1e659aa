/** The superblock codec (`virtual_volume.rs`, block 0). */
module Superblock {
  import opened Bytes

  const BLOCK_SIZE := 4096
  const SUPERBLOCK_MAGIC := 0x5345_4333
  const VAULT_VERSION := 3
  const RESERVED := 4040

  type Hash32 = h: seq<byte> | |h| == 32 witness seq(32, _ => 0)

  datatype Info = Info(version: u32, total: u64, free: u64, keyHash: Hash32)

  function Zeros(n: nat): (z: seq<byte>)
    ensures |z| == n && forall k :: 0 <= k < n ==> z[k] == 0
  {
    seq(n, _ => 0)
  }

  function Write(info: Info): (raw: seq<byte>)
    ensures |raw| == BLOCK_SIZE
  {
    LE(SUPERBLOCK_MAGIC, 4) + LE(info.version, 4) + LE(info.total, 8) + LE(info.free, 8) + info.keyHash + Zeros(RESERVED)
  }

  function Read(raw: seq<byte>): Option<Info>
    requires |raw| == BLOCK_SIZE
  {
    if FromLE(raw[0..4]) != SUPERBLOCK_MAGIC then None
    else
      WordSizes();
      EncodeDecode(raw[4..8]);
      EncodeDecode(raw[8..16]);
      EncodeDecode(raw[16..24]);
      Some(Info(FromLE(raw[4..8]), FromLE(raw[8..16]), FromLE(raw[16..24]), raw[24..56]))
  }

  lemma Fields(info: Info)
    ensures var raw := Write(info);
            && raw[0..4] == LE(SUPERBLOCK_MAGIC, 4) && raw[4..8] == LE(info.version, 4)
            && raw[8..16] == LE(info.total, 8) && raw[16..24] == LE(info.free, 8)
            && raw[24..56] == info.keyHash && raw[56..] == Zeros(RESERVED)
  {
  }

  /** Reading undoes writing for every field value. */
  lemma ReadWrite(info: Info)
    ensures Read(Write(info)) == Some(info)
  {
    Fields(info);
    WordSizes();
    DecodeEncode(SUPERBLOCK_MAGIC, 4);
    DecodeEncode(info.version, 4);
    DecodeEncode(info.total, 8);
    DecodeEncode(info.free, 8);
  }

  /** A block is the image of what it reads as exactly when its reserved bytes are zero. */
  lemma WriteRead(raw: seq<byte>)
    requires |raw| == BLOCK_SIZE && Read(raw).Some?
    ensures Write(Read(raw).value) == raw <==> raw[56..] == Zeros(RESERVED)
  {
    var info := Read(raw).value;
    Fields(info);
    EncodeDecode(raw[0..4]);
    EncodeDecode(raw[4..8]);
    EncodeDecode(raw[8..16]);
    EncodeDecode(raw[16..24]);
    Split(raw);
    Split(Write(info));
  }

  lemma Split(raw: seq<byte>)
    requires |raw| == BLOCK_SIZE
    ensures raw == raw[0..4] + raw[4..8] + raw[8..16] + raw[16..24] + raw[24..56] + raw[56..]
  {
  }
}
