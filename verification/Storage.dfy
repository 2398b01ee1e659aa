/** Writes to a file that may fail or be torn: any subset of the bytes may have landed. */
module Storage {
  import opened Bytes

  /** How a write went: all of it landed and the call returned success, or it failed after some bytes. */
  datatype Io = Done | Failed(landed: set<nat>)

  predicate Landed(io: Io, k: nat) {
    io.Done? || k in io.landed
  }

  /** The file after writing `data` at `off`. */
  function Land(file: seq<byte>, off: nat, data: seq<byte>, io: Io): (r: seq<byte>)
    requires off + |data| <= |file|
    ensures |r| == |file|
    ensures forall k :: 0 <= k < |file| ==>
              r[k] == if off <= k < off + |data| && Landed(io, k - off) then data[k - off] else file[k]
  {
    seq(|file|, k requires 0 <= k < |file| =>
      if off <= k < off + |data| && Landed(io, k - off) then data[k - off] else file[k])
  }

  /** The written range reads back as the data when the write was done. */
  lemma LandReads(file: seq<byte>, off: nat, data: seq<byte>)
    requires off + |data| <= |file|
    ensures Land(file, off, data, Done)[off..off + |data|] == data
  {
  }

  /** A write leaves every range that does not meet it alone, whatever landed. */
  lemma LandFrame(file: seq<byte>, off: nat, data: seq<byte>, io: Io, lo: nat, hi: nat)
    requires off + |data| <= |file| && lo <= hi <= |file|
    requires hi <= off || off + |data| <= lo
    ensures Land(file, off, data, io)[lo..hi] == file[lo..hi]
  {
  }

  /** What a region holds after being overwritten: each byte old or new. */
  function Torn(before: seq<byte>, after: seq<byte>, io: Io): (r: seq<byte>)
    requires |before| == |after|
    ensures |r| == |before|
    ensures forall k :: 0 <= k < |r| ==> r[k] == if Landed(io, k) then after[k] else before[k]
  {
    seq(|before|, k requires 0 <= k < |before| => if Landed(io, k) then after[k] else before[k])
  }

  lemma LandIsTorn(file: seq<byte>, off: nat, data: seq<byte>, io: Io)
    requires off + |data| <= |file|
    ensures Land(file, off, data, io)[off..off + |data|] == Torn(file[off..off + |data|], data, io)
  {
  }

  /** At most one byte differs. */
  ghost predicate OneByteApart(a: seq<byte>, b: seq<byte>)
    requires |a| == |b|
  {
    forall i, j :: 0 <= i < j < |a| ==> a[i] == b[i] || a[j] == b[j]
  }

  ghost predicate AlwaysWhole(before: seq<byte>, after: seq<byte>)
    requires |before| == |after|
  {
    forall io: Io :: Torn(before, after, io) == before || Torn(before, after, io) == after
  }

  lemma WholeAt(before: seq<byte>, after: seq<byte>, io: Io)
    requires |before| == |after| && OneByteApart(before, after)
    ensures Torn(before, after, io) == before || Torn(before, after, io) == after
  {
    var t := Torn(before, after, io);
    if t != before {
      var i :| 0 <= i < |t| && t[i] != before[i];
      forall k | 0 <= k < |t| ensures t[k] == after[k] {
        assert t[i] == after[i];
      }
    }
  }

  /** An overwrite is atomic under every tear exactly when it changes at most one byte. */
  lemma AtomicIffOneByte(before: seq<byte>, after: seq<byte>)
    requires |before| == |after|
    ensures AlwaysWhole(before, after) <==> OneByteApart(before, after)
  {
    if OneByteApart(before, after) {
      forall io: Io ensures Torn(before, after, io) == before || Torn(before, after, io) == after {
        WholeAt(before, after, io);
      }
    } else {
      var i, j :| 0 <= i < j < |before| && before[i] != after[i] && before[j] != after[j];
      var t := Torn(before, after, Failed({i}));
      assert t[i] != before[i] && t[j] != after[j];
    }
  }
}
