/** The allocation bitmap: byte `i >> 3`, bit `i & 7`; a set bit is an allocated block. */
module Bitmap {
  import opened Bytes

  const BITMAP_BYTES := 32768
  const MAX_DATA_BLOCKS := 262144

  type Map = m: seq<byte> | |m| == BITMAP_BYTES witness seq(BITMAP_BYTES, _ => 0)

  predicate IsSet(m: Map, i: nat)
    requires i < MAX_DATA_BLOCKS
  {
    Bit(m[i / 8], i % 8)
  }

  function SetBit(m: Map, i: nat): (r: Map)
    requires i < MAX_DATA_BLOCKS
  {
    MaskFits(m[i / 8], i % 8);
    m[i / 8 := Or(m[i / 8], Shl(i % 8))]
  }

  function ClearBit(m: Map, i: nat): (r: Map)
    requires i < MAX_DATA_BLOCKS
  {
    MaskFits(m[i / 8], i % 8);
    AndBound(m[i / 8], Not(Shl(i % 8)));
    m[i / 8 := And(m[i / 8], Not(Shl(i % 8)))]
  }

  lemma MaskFits(b: byte, k: nat)
    requires k < 8
    ensures Shl(k) < 256 && Or(b, Shl(k)) < 256
  {
    ByteWidth();
    ShlMonotone(k, 8);
    OrBound(b, Shl(k), 8);
  }

  lemma SetBitIsSet(m: Map, i: nat, j: nat)
    requires i < MAX_DATA_BLOCKS && j < MAX_DATA_BLOCKS
    ensures IsSet(SetBit(m, i), j) <==> j == i || IsSet(m, j)
  {
    if i / 8 == j / 8 {
      SetMask(m[i / 8], i % 8, j % 8);
      assert i == j <==> i % 8 == j % 8;
    }
  }

  lemma ClearBitIsSet(m: Map, i: nat, j: nat)
    requires i < MAX_DATA_BLOCKS && j < MAX_DATA_BLOCKS
    ensures IsSet(ClearBit(m, i), j) <==> j != i && IsSet(m, j)
  {
    if i / 8 == j / 8 {
      ClearMask(m[i / 8], i % 8, j % 8);
      assert i == j <==> i % 8 == j % 8;
    }
  }

  /** The set of allocated indices below n. */
  ghost function Allocated(m: Map, n: nat): set<nat>
    requires n <= MAX_DATA_BLOCKS
  {
    set i: nat | i < n && IsSet(m, i)
  }

  lemma AllocatedSet(m: Map, i: nat, n: nat)
    requires i < n <= MAX_DATA_BLOCKS
    ensures Allocated(SetBit(m, i), n) == Allocated(m, n) + {i}
  {
    forall j: nat | j < n ensures j in Allocated(SetBit(m, i), n) <==> j in Allocated(m, n) + {i} {
      SetBitIsSet(m, i, j);
    }
  }

  lemma AllocatedClear(m: Map, i: nat, n: nat)
    requires i < n <= MAX_DATA_BLOCKS
    ensures Allocated(ClearBit(m, i), n) == Allocated(m, n) - {i}
  {
    forall j: nat | j < n ensures j in Allocated(ClearBit(m, i), n) <==> j in Allocated(m, n) - {i} {
      ClearBitIsSet(m, i, j);
    }
  }

  /** The number of clear bits among the first n. */
  function FreeCount(m: Map, n: nat): (c: nat)
    requires n <= MAX_DATA_BLOCKS
    ensures c <= n
  {
    if n == 0 then 0 else FreeCount(m, n - 1) + if IsSet(m, n - 1) then 0 else 1
  }

  lemma AllocatedNext(m: Map, n: nat)
    requires 0 < n <= MAX_DATA_BLOCKS
    ensures Allocated(m, n) == Allocated(m, n - 1) + (if IsSet(m, n - 1) then {n - 1} else {})
  {
  }

  /** The count and the set of allocated indices are complementary. */
  lemma {:induction false} FreeCountIsComplement(m: Map, n: nat)
    requires n <= MAX_DATA_BLOCKS
    ensures FreeCount(m, n) == n - |Allocated(m, n)|
  {
    if n == 0 {
      assert Allocated(m, 0) == {};
    } else {
      FreeCountIsComplement(m, n - 1);
      AllocatedNext(m, n);
      assert n - 1 !in Allocated(m, n - 1);
    }
  }

  lemma FreeCountSet(m: Map, i: nat, n: nat)
    requires i < n <= MAX_DATA_BLOCKS && !IsSet(m, i)
    ensures FreeCount(m, n) >= 1 && FreeCount(SetBit(m, i), n) == FreeCount(m, n) - 1
  {
    FreeCountIsComplement(m, n);
    FreeCountIsComplement(SetBit(m, i), n);
    AllocatedSet(m, i, n);
  }

  lemma FreeCountClear(m: Map, i: nat, n: nat)
    requires i < n <= MAX_DATA_BLOCKS && IsSet(m, i)
    ensures FreeCount(ClearBit(m, i), n) == FreeCount(m, n) + 1
  {
    FreeCountIsComplement(m, n);
    FreeCountIsComplement(ClearBit(m, i), n);
    AllocatedClear(m, i, n);
  }

  /** The scan: the least clear index below n, looking from i on. */
  function FirstFree(m: Map, i: nat, n: nat): (r: Option<nat>)
    requires i <= n <= MAX_DATA_BLOCKS
    ensures r.Some? ==> i <= r.value < n && !IsSet(m, r.value) && forall j :: i <= j < r.value ==> IsSet(m, j)
    ensures r.None? ==> forall j :: i <= j < n ==> IsSet(m, j)
    decreases n - i
  {
    if i == n then None else if !IsSet(m, i) then Some(i) else FirstFree(m, i + 1, n)
  }

  /** A positive count means the scan succeeds. */
  lemma {:induction false} CountedMeansFound(m: Map, n: nat)
    requires n <= MAX_DATA_BLOCKS
    ensures FreeCount(m, n) > 0 <==> FirstFree(m, 0, n).Some?
  {
    FreeCountIsComplement(m, n);
    var r := FirstFree(m, 0, n);
    if r.None? {
      FullRange(Allocated(m, n), n);
    } else {
      FreeCountSet(m, r.value, n);
    }
  }

  lemma {:induction false} FullRange(s: set<nat>, n: nat)
    requires forall i: nat :: i in s <==> i < n
    ensures |s| == n
  {
    if n != 0 {
      FullRange(s - {n - 1}, n - 1);
    } else {
      assert s == {};
    }
  }

  /** No index at or past n is allocated. */
  ghost predicate ClearFrom(m: Map, n: nat) {
    forall i: nat :: n <= i < MAX_DATA_BLOCKS ==> !IsSet(m, i)
  }

  function Empty(): Map {
    seq(BITMAP_BYTES, _ => 0)
  }

  lemma EmptyIsClear(n: nat)
    requires n <= MAX_DATA_BLOCKS
    ensures ClearFrom(Empty(), 0) && Allocated(Empty(), n) == {} && FreeCount(Empty(), n) == n
  {
    forall i: nat | i < MAX_DATA_BLOCKS ensures !IsSet(Empty(), i) {
      ZeroBits(i % 8);
    }
    FreeCountIsComplement(Empty(), n);
  }
}
