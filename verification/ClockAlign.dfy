/** The clock-skew estimator: a 16-slot ring of deltas and their median (`secure_core/src/clock_align.rs`). */
module ClockAlign {
  import opened Bytes

  type i64 = x: int | -0x8000_0000_0000_0000 <= x < 0x8000_0000_0000_0000

  const DELTA_HISTORY_SIZE := 16
  const TWO_62 := 0x4000_0000_0000_0000
  const TWO_63 := 0x8000_0000_0000_0000

  /** Two's-complement reduction to 64 bits. */
  function Wrap(x: int): i64 {
    (x + 0x8000_0000_0000_0000) % U64_LIMIT - 0x8000_0000_0000_0000
  }

  lemma WrapFits(x: int)
    ensures Wrap(x) == x <==> -TWO_63 <= x < TWO_63
  {
  }

  /** What wrapping does to the sum of two words. */
  lemma WrapSum(x: int)
    requires -2 * TWO_63 <= x < 2 * TWO_63
    ensures Wrap(x) == if x < -TWO_63 then x + U64_LIMIT else if x < TWO_63 then x else x - U64_LIMIT
  {
  }

  /** `remote as i64 - local as i64`. */
  function Delta(remote: u64, local: u64): i64 {
    Wrap(Wrap(remote) - Wrap(local))
  }

  /** A delta is the difference of the counters modulo 2^64. */
  lemma DeltaModulo(remote: u64, local: u64)
    ensures (Delta(remote, local) - (remote - local)) % U64_LIMIT == 0
  {
    WrapModulo(remote);
    WrapModulo(local);
    WrapModulo(Wrap(remote) - Wrap(local));
    hide Wrap;
    var a, b, d := Wrap(remote), Wrap(local), Delta(remote, local);
    MultiplesAdd(a - remote, local - b);
    MultiplesAdd(d - (a - b), (a - remote) + (local - b));
    assert d - (remote - local) == (d - (a - b)) + ((a - remote) + (local - b));
  }

  lemma WrapModulo(x: int)
    ensures (Wrap(x) - x) % U64_LIMIT == 0 && (x - Wrap(x)) % U64_LIMIT == 0
  {
  }

  lemma MultiplesAdd(x: int, y: int)
    requires x % U64_LIMIT == 0 && y % U64_LIMIT == 0
    ensures (x + y) % U64_LIMIT == 0
  {
  }

  /** Division by two, truncating toward zero. */
  function Half(x: int): (h: int)
    ensures -1 <= x - 2 * h <= 1 && (if x >= 0 then 0 <= 2 * h <= x else x <= 2 * h <= 0)
  {
    if x >= 0 then x / 2 else -((-x) / 2)
  }

  // ---- sorting -------------------------------------------------------------------------

  function Insert(x: i64, s: seq<i64>): (r: seq<i64>)
    ensures |r| == |s| + 1
  {
    if s == [] || x <= s[0] then [x] + s else [s[0]] + Insert(x, s[1..])
  }

  function Sort(s: seq<i64>): (r: seq<i64>)
    ensures |r| == |s|
  {
    if s == [] then [] else Insert(s[0], Sort(s[1..]))
  }

  predicate Ascending(s: seq<i64>) {
    forall i, j :: 0 <= i < j < |s| ==> s[i] <= s[j]
  }

  lemma {:induction false} InsertPermutes(x: i64, s: seq<i64>)
    ensures multiset(Insert(x, s)) == multiset(s) + multiset{x}
  {
    if s != [] && x > s[0] {
      InsertPermutes(x, s[1..]);
      assert s == [s[0]] + s[1..];
    }
  }

  /** Inserting keeps a lower bound that the new element also meets. */
  lemma {:induction false} InsertBound(x: i64, s: seq<i64>, lo: int)
    requires lo <= x && forall i :: 0 <= i < |s| ==> lo <= s[i]
    ensures forall i :: 0 <= i < |Insert(x, s)| ==> lo <= Insert(x, s)[i]
  {
    if s != [] && x > s[0] { InsertBound(x, s[1..], lo); }
  }

  lemma {:induction false} InsertAscends(x: i64, s: seq<i64>)
    requires Ascending(s)
    ensures Ascending(Insert(x, s))
  {
    if s != [] && x > s[0] {
      InsertAscends(x, s[1..]);
      InsertBound(x, s[1..], s[0]);
    }
  }

  /** Sorting yields an ascending permutation. */
  lemma {:induction false} SortSorts(s: seq<i64>)
    ensures Ascending(Sort(s)) && multiset(Sort(s)) == multiset(s)
  {
    if s != [] {
      SortSorts(s[1..]);
      InsertAscends(s[0], Sort(s[1..]));
      InsertPermutes(s[0], Sort(s[1..]));
      assert s == [s[0]] + s[1..];
    }
  }

  lemma HeadAndTail(a: seq<i64>)
    requires a != []
    ensures a[0] in multiset(a) && multiset(a[1..]) == multiset(a) - multiset{a[0]}
  {
    assert a == [a[0]] + a[1..];
  }

  lemma HeadIsLeast(a: seq<i64>, x: i64)
    requires Ascending(a) && a != [] && x in multiset(a)
    ensures a[0] <= x
  {
    assert x in a;
  }

  lemma SameLength(a: seq<i64>, b: seq<i64>)
    requires multiset(a) == multiset(b)
    ensures |a| == |b|
  {
    assert |a| == |multiset(a)| && |b| == |multiset(b)|;
  }

  lemma SameHead(a: seq<i64>, b: seq<i64>)
    requires Ascending(a) && Ascending(b) && multiset(a) == multiset(b) && a != [] && b != []
    ensures a[0] == b[0] && multiset(a[1..]) == multiset(b[1..])
  {
    HeadAndTail(a);
    HeadAndTail(b);
    HeadIsLeast(a, b[0]);
    HeadIsLeast(b, a[0]);
  }

  /** There is only one ascending arrangement of a multiset. */
  lemma {:induction false} AscendingUnique(a: seq<i64>, b: seq<i64>)
    requires Ascending(a) && Ascending(b) && multiset(a) == multiset(b)
    ensures a == b
    decreases |a|
  {
    SameLength(a, b);
    if a != [] {
      SameHead(a, b);
      TailAscends(a);
      TailAscends(b);
      AscendingUnique(a[1..], b[1..]);
      assert a == [a[0]] + a[1..] && b == [b[0]] + b[1..];
    }
  }

  lemma TailAscends(a: seq<i64>)
    requires Ascending(a) && a != []
    ensures Ascending(a[1..])
  {
  }

  // ---- the median ----------------------------------------------------------------------

  /** The mean of the two middle samples, in 64-bit arithmetic. */
  function Mean(a: int, b: int): i64 {
    Half(Wrap(a + b))
  }

  lemma MeanWithin(a: int, b: int, lo: int, hi: int)
    requires -TWO_62 <= lo && hi < TWO_62 && lo <= a <= hi && lo <= b <= hi
    ensures lo <= Mean(a, b) <= hi
  {
    assert Wrap(a + b) == a + b;
  }

  /** Half of any word lies within 62 bits. */
  lemma MeanSmall(a: int, b: int)
    ensures -TWO_62 <= Mean(a, b) < TWO_62
  {
  }

  /** The mean lies between the two samples exactly when their sum does not wrap. */
  lemma MeanBetweenIff(a: i64, b: i64)
    requires a <= b
    ensures a <= Mean(a, b) <= b <==> -TWO_63 <= a + b < TWO_63
  {
    hide Wrap;
    WrapSum(a + b);
  }

  function Median(s: seq<i64>): i64 {
    if s == [] then 0
    else
      var t := Sort(s);
      var mid := |s| / 2;
      if |s| % 2 == 1 then t[mid] else Mean(t[mid - 1], t[mid])
  }

  /** The median depends only on which deltas were seen, not on their order. */
  lemma MedianOfMultiset(a: seq<i64>, b: seq<i64>)
    requires multiset(a) == multiset(b)
    ensures Median(a) == Median(b)
  {
    SortSorts(a);
    SortSorts(b);
    AscendingUnique(Sort(a), Sort(b));
    SameLength(a, b);
  }

  /** How many samples lie in [lo, hi]. */
  function Within(s: seq<i64>, lo: int, hi: int): (c: nat)
    ensures c <= |s|
  {
    if s == [] then 0 else Within(s[1..], lo, hi) + if lo <= s[0] <= hi then 1 else 0
  }

  lemma {:induction false} WithinInsert(x: i64, s: seq<i64>, lo: int, hi: int)
    ensures Within(Insert(x, s), lo, hi) == Within(s, lo, hi) + if lo <= x <= hi then 1 else 0
  {
    if s == [] || x <= s[0] {
      assert ([x] + s)[1..] == s;
    } else {
      WithinInsert(x, s[1..], lo, hi);
      assert Insert(x, s)[1..] == Insert(x, s[1..]);
    }
  }

  lemma {:induction false} WithinSort(s: seq<i64>, lo: int, hi: int)
    ensures Within(Sort(s), lo, hi) == Within(s, lo, hi)
  {
    if s != [] {
      WithinSort(s[1..], lo, hi);
      WithinInsert(s[0], Sort(s[1..]), lo, hi);
    }
  }

  /** Samples left or right of the interval do not count. */
  lemma {:induction false} WithinOutside(s: seq<i64>, lo: int, hi: int, from: nat, to: nat)
    requires from <= to <= |s|
    requires forall i :: from <= i < to ==> s[i] < lo || s[i] > hi
    ensures Within(s, lo, hi) <= |s| - (to - from)
  {
    if s != [] && to > 0 {
      var f := if from == 0 then 0 else from - 1;
      WithinOutside(s[1..], lo, hi, f, to - 1);
    }
  }

  /** Where a strict majority lies, the middle of the sorted samples lies too. */
  lemma MiddleWithin(s: seq<i64>, lo: int, hi: int, k: nat)
    requires 2 * Within(s, lo, hi) > |s| && k < |s| && |s| - 1 <= 2 * k + (if |s| % 2 == 1 then 0 else 1)
    requires 2 * k <= |s|
    ensures lo <= Sort(s)[k] <= hi
  {
    var t := Sort(s);
    SortSorts(s);
    WithinSort(s, lo, hi);
    if t[k] < lo {
      WithinOutside(t, lo, hi, 0, k + 1);
    }
    if t[k] > hi {
      WithinOutside(t, lo, hi, k, |t|);
    }
  }

  /** The two samples of which an even number of samples takes the mean. */
  function Middles(s: seq<i64>): (m: (i64, i64))
    requires s != []
  {
    var t := Sort(s);
    var mid := |s| / 2;
    (if mid == 0 then t[0] else t[mid - 1], t[mid])
  }

  /** An even number of samples has its median between the middle two exactly when their sum does not wrap. */
  lemma MedianBetweenIff(s: seq<i64>)
    requires s != [] && |s| % 2 == 0
    ensures var (a, b) := Middles(s); a <= b && (a <= Median(s) <= b <==> -TWO_63 <= a + b < TWO_63)
  {
    hide Mean, Sort;
    SortSorts(s);
    var (a, b) := Middles(s);
    MeanBetweenIff(a, b);
  }

  /** m is half of x, rounded toward zero. */
  predicate IsHalf(m: int, x: int) {
    if x >= 0 then 0 <= 2 * m <= x <= 2 * m + 1 else 2 * m - 1 <= x <= 2 * m <= 0
  }

  /**
   An even number of samples has as median the mean of the middle two, rounded toward zero; where their
   sum does not fit 64 bits, that of the sum less or plus 2^64.
   */
  lemma MedianIsMean(s: seq<i64>)
    requires s != [] && |s| % 2 == 0
    ensures var (a, b) := Middles(s);
            var sum := a + b;
            && (-TWO_63 <= sum < TWO_63 ==> IsHalf(Median(s), sum))
            && (sum >= TWO_63 ==> IsHalf(Median(s), sum - 2 * TWO_63))
            && (sum < -TWO_63 ==> IsHalf(Median(s), sum + 2 * TWO_63))
  {
    hide Wrap, Sort;
    var (a, b) := Middles(s);
    WrapSum(a + b);
  }

  /**
   The median stays in [lo, hi] whenever a strict majority of the samples do; outliers may be
   anything. An even number of samples needs an interval within 62 bits, where the sum of the middle
   two cannot wrap, or one that holds all of 62 bits, where every mean lies.
   */
  lemma MedianMajority(s: seq<i64>, lo: int, hi: int)
    requires 2 * Within(s, lo, hi) > |s|
    requires |s| % 2 == 1 || Tame(lo, hi)
    ensures lo <= Median(s) <= hi
  {
    var mid := |s| / 2;
    MiddleWithin(s, lo, hi, mid);
    if |s| % 2 == 0 {
      MiddleWithin(s, lo, hi, mid - 1);
      var a, b := Sort(s)[mid - 1], Sort(s)[mid];
      MeanSmall(a, b);
      if -TWO_62 <= lo && hi < TWO_62 { MeanWithin(a, b, lo, hi); }
    }
  }

  predicate Tame(lo: int, hi: int) {
    (-TWO_62 <= lo && hi < TWO_62) || (lo <= -TWO_62 && TWO_62 - 1 <= hi)
  }

  /** Wherever a strict majority of an even number of samples lies, the median lies too. */
  ghost predicate MajorityRules(lo: int, hi: int) {
    forall s: seq<i64> :: |s| % 2 == 0 && 2 * Within(s, lo, hi) > |s| ==> lo <= Median(s) <= hi
  }

  lemma PairMedian(a: i64, b: i64, lo: int, hi: int)
    requires a <= b && lo <= a && b <= hi
    ensures Median([a, b]) == Mean(a, b) && Within([a, b], lo, hi) == 2
  {
    assert [a, b][1..] == [b] && [b][1..] == [];
    assert Sort([b]) == [b] && Sort([a, b]) == [a, b];
    assert Within([b], lo, hi) == 1;
  }

  /** Two samples in an untame interval whose mean is outside it. */
  lemma Straying(lo: i64, hi: i64) returns (a: i64, b: i64)
    requires lo <= hi && !Tame(lo, hi)
    ensures lo <= a <= b <= hi && !(lo <= Mean(a, b) <= hi)
  {
    hide Wrap;
    if hi >= TWO_62 {
      a := if lo <= TWO_62 then TWO_62 else lo;
      b := a;
    } else {
      b := if hi >= -TWO_62 then -TWO_62 else hi;
      a := if hi >= -TWO_62 then -TWO_62 - 1 else hi;
    }
    WrapSum(a + b);
  }

  /** The majority law holds for an interval exactly when it is tame. */
  lemma MajorityIff(lo: i64, hi: i64)
    requires lo <= hi
    ensures MajorityRules(lo, hi) <==> Tame(lo, hi)
  {
    if Tame(lo, hi) {
      forall s: seq<i64> | |s| % 2 == 0 && 2 * Within(s, lo, hi) > |s| ensures lo <= Median(s) <= hi {
        MedianMajority(s, lo, hi);
      }
    } else {
      var a, b := Straying(lo, hi);
      PairMedian(a, b, lo, hi);
    }
  }

  // ---- swapping the two clocks ---------------------------------------------------------

  /** No sample is -2^63, which has no negation. */
  predicate Negatable(s: seq<i64>) {
    forall i :: 0 <= i < |s| ==> -TWO_63 < s[i]
  }

  function Negated(s: seq<i64>): (r: seq<i64>)
    requires Negatable(s)
    ensures |r| == |s| && Negatable(r) && forall i :: 0 <= i < |s| ==> r[i] == -s[i]
  {
    seq(|s|, i requires 0 <= i < |s| => var x: i64 := -s[i]; x)
  }

  /** Exchanging the counters negates a delta exactly when it has a negation. */
  lemma DeltaSwapped(remote: u64, local: u64)
    ensures Delta(local, remote) == -(Delta(remote, local) as int) <==> Delta(remote, local) != -TWO_63
  {
    hide Wrap;
    var d := Wrap(remote) - Wrap(local);
    WrapSum(d);
    WrapSum(-d);
  }

  function Reversed(s: seq<i64>): (r: seq<i64>)
    ensures |r| == |s| && forall i :: 0 <= i < |s| ==> r[i] == s[|s| - 1 - i]
  {
    seq(|s|, i requires 0 <= i < |s| => s[|s| - 1 - i])
  }

  lemma {:induction false} ReversedPermutes(s: seq<i64>)
    ensures multiset(Reversed(s)) == multiset(s)
  {
    if s != [] {
      ReversedPermutes(s[1..]);
      assert Reversed(s) == Reversed(s[1..]) + [s[0]];
      assert s == [s[0]] + s[1..];
    }
  }

  lemma {:induction false} NegatedWithin(s: seq<i64>, lo: int, hi: int)
    requires Negatable(s)
    ensures Within(Negated(s), -hi, -lo) == Within(s, lo, hi)
  {
    if s != [] {
      NegatedWithin(s[1..], lo, hi);
      assert Negated(s)[1..] == Negated(s[1..]);
    }
  }

  /** A multiset counts how many samples lie in a one-point interval. */
  lemma {:induction false} WithinCounts(s: seq<i64>, y: i64)
    ensures multiset(s)[y] == Within(s, y, y)
  {
    if s != [] {
      WithinCounts(s[1..], y);
      assert s == [s[0]] + s[1..];
    }
  }

  lemma NegatedSort(s: seq<i64>)
    requires Negatable(s) && Negatable(Sort(s))
    ensures multiset(Negated(Sort(s))) == multiset(Negated(s))
  {
    forall y: i64 ensures multiset(Negated(Sort(s)))[y] == multiset(Negated(s))[y] {
      WithinCounts(Negated(s), y);
      WithinCounts(Negated(Sort(s)), y);
      var z: int := -(y as int);
      NegatedWithin(s, z, z);
      NegatedWithin(Sort(s), z, z);
      WithinSort(s, z, z);
    }
  }

  lemma PermutedNegatable(a: seq<i64>, b: seq<i64>)
    requires Negatable(a) && multiset(a) == multiset(b)
    ensures Negatable(b)
  {
    forall i | 0 <= i < |b| ensures -TWO_63 < b[i] {
      assert b[i] in multiset(b);
      assert b[i] in a;
    }
  }

  /** Sorting the negated samples gives the negated sorted samples, backwards. */
  lemma SortNegated(s: seq<i64>)
    requires Negatable(s)
    ensures Negatable(Sort(s)) && Sort(Negated(s)) == Reversed(Negated(Sort(s)))
  {
    SortSorts(s);
    PermutedNegatable(s, Sort(s));
    SortSorts(Negated(s));
    NegatedSort(s);
    ReversedPermutes(Negated(Sort(s)));
    AscendingUnique(Sort(Negated(s)), Reversed(Negated(Sort(s))));
  }

  lemma MeanNegatedIff(a: i64, b: i64)
    requires -TWO_63 < a && -TWO_63 < b
    ensures Mean(-b, -a) == -(Mean(a, b) as int) <==> a + b != TWO_63 && a + b != -TWO_63
  {
    hide Wrap;
    WrapSum(a + b);
    WrapSum(-b - a);
  }

  /**
   Exchanging the roles of the two clocks negates the estimate exactly when the number of samples is
   odd or zero, or the middle two do not sum to 2^63 or -2^63. This is where division truncating toward
   zero matters: with rounding down it would be off by one.
   */
  lemma MedianAntisymmetricIff(s: seq<i64>)
    requires Negatable(s)
    ensures Median(Negated(s)) == -(Median(s) as int) <==>
            || s == [] || |s| % 2 == 1
            || (var (a, b) := Middles(s); a + b != TWO_63 && a + b != -TWO_63)
  {
    hide Sort, Mean, Reversed, Negated;
    SortNegated(s);
    if s != [] {
      var t, u, mid := Sort(s), Sort(Negated(s)), |s| / 2;
      if |s| % 2 == 1 {
        assert |s| == 2 * mid + 1 && u[mid] == -t[mid];
      } else {
        assert |s| == 2 * mid && u[mid] == -t[mid - 1] && u[mid - 1] == -t[mid];
        MeanNegatedIff(t[mid - 1], t[mid]);
      }
    }
  }

  /** Counters below 2^62 neither wrap in the subtraction nor in the sum of any two deltas. */
  lemma NoOverflow(remote: u64, local: u64, remote': u64, local': u64)
    requires remote < TWO_62 && local < TWO_62 && remote' < TWO_62 && local' < TWO_62
    ensures Delta(remote, local) == remote - local
    ensures var sum := Delta(remote, local) + Delta(remote', local'); Wrap(sum) == sum
  {
    hide Wrap;
    DeltaExact(remote, local);
    DeltaExact(remote', local');
    WrapFits(Delta(remote, local) + Delta(remote', local'));
  }

  lemma DeltaExact(remote: u64, local: u64)
    requires remote < TWO_62 && local < TWO_62
    ensures Delta(remote, local) == remote - local
  {
    hide Wrap;
    WrapFits(remote);
    WrapFits(local);
    WrapFits(remote - local);
  }

  // ---- the ring ------------------------------------------------------------------------

  /** The last sixteen deltas, or all of them. */
  function Recent(history: seq<i64>): seq<i64> {
    if |history| <= DELTA_HISTORY_SIZE then history else history[|history| - DELTA_HISTORY_SIZE..]
  }

  class SkewRingBuffer {
    const buf: array<i64>
    var writeIdx: nat
    var count: nat
    ghost var history: seq<i64>

    /** Until full the ring holds the history in order; afterwards its last sixteen entries, rotated. */
    ghost predicate Valid()
      reads this, buf
    {
      RingState(buf[..], writeIdx, count, history)
    }

    constructor ()
      ensures Valid() && history == [] && fresh(buf)
    {
      buf := new i64[DELTA_HISTORY_SIZE](_ => 0);
      writeIdx, count, history := 0, 0, [];
    }

    method Push(delta: i64)
      requires Valid()
      modifies this, buf
      ensures Valid() && history == old(history) + [delta]
    {
      ghost var was := buf[..];
      Pushed(was, writeIdx, count, delta, history);
      hide RingState;
      buf[writeIdx] := delta;
      assert buf[..] == was[writeIdx := delta];
      writeIdx := (writeIdx + 1) % DELTA_HISTORY_SIZE;
      if count < DELTA_HISTORY_SIZE { count := count + 1; }
      history := history + [delta];
    }

    /** The median of the valid slots is the median of the most recent deltas. */
    method MedianNow() returns (m: i64)
      requires Valid()
      ensures m == Median(Recent(history))
    {
      if count == 0 { return 0; }
      var entries := buf[..count];
      var sorted := Sort(entries);
      var mid := count / 2;
      m := if count % 2 == 1 then sorted[mid] else Mean(sorted[mid - 1], sorted[mid]);
      RingMultiset(buf[..], writeIdx, count, history);
      MedianOfMultiset(entries, Recent(history));
    }
  }

  /** A ring of sixteen slots, next written at w, after this history. */
  ghost predicate IsRing(buf: seq<i64>, w: nat, history: seq<i64>) {
    && |buf| == DELTA_HISTORY_SIZE && w < DELTA_HISTORY_SIZE
    && (if |history| < DELTA_HISTORY_SIZE then w == |history| && buf[..w] == history
        else buf[w..] + buf[..w] == Recent(history))
  }

  /** The ring and the number of its valid slots. */
  ghost predicate RingState(buf: seq<i64>, w: nat, count: nat, history: seq<i64>) {
    IsRing(buf, w, history) && count == |Recent(history)|
  }

  lemma RotatedFilling(was: seq<i64>, w: nat, delta: i64, history: seq<i64>)
    requires IsRing(was, w, history) && |history| < DELTA_HISTORY_SIZE
    ensures IsRing(was[w := delta], (w + 1) % DELTA_HISTORY_SIZE, history + [delta])
  {
    var now, h := was[w := delta], history + [delta];
    assert now[..w + 1] == was[..w] + [delta];
    if w == 15 {
      assert (w + 1) % DELTA_HISTORY_SIZE == 0 && now[..16] == now;
      assert now[0..] + now[..0] == now == h;
    }
  }

  lemma RecentSnoc(history: seq<i64>, delta: i64)
    requires |history| >= DELTA_HISTORY_SIZE
    ensures Recent(history + [delta]) == Recent(history)[1..] + [delta]
  {
  }

  /** Overwriting the slot at w and moving on drops the first entry of the rotation and appends the new one. */
  lemma RotationShifts(was: seq<i64>, w: nat, delta: i64)
    requires |was| == DELTA_HISTORY_SIZE && w < DELTA_HISTORY_SIZE
    ensures var (now, w') := (was[w := delta], (w + 1) % DELTA_HISTORY_SIZE);
            now[w'..] + now[..w'] == (was[w..] + was[..w])[1..] + [delta]
  {
    var now := was[w := delta];
    if w == DELTA_HISTORY_SIZE - 1 {
      assert now[0..] + now[..0] == was[..w] + [delta];
    } else {
      assert now[w + 1..] == was[w + 1..] && now[..w + 1] == was[..w] + [delta];
    }
  }

  lemma RotatedFull(was: seq<i64>, w: nat, delta: i64, history: seq<i64>)
    requires IsRing(was, w, history) && |history| >= DELTA_HISTORY_SIZE
    ensures IsRing(was[w := delta], (w + 1) % DELTA_HISTORY_SIZE, history + [delta])
  {
    hide Recent;
    RecentSnoc(history, delta);
    RotationShifts(was, w, delta);
  }

  lemma Rotated(was: seq<i64>, w: nat, delta: i64, history: seq<i64>)
    requires IsRing(was, w, history)
    ensures IsRing(was[w := delta], (w + 1) % DELTA_HISTORY_SIZE, history + [delta])
  {
    if |history| < DELTA_HISTORY_SIZE {
      RotatedFilling(was, w, delta, history);
    } else {
      RotatedFull(was, w, delta, history);
    }
  }

  lemma Pushed(was: seq<i64>, w: nat, count: nat, delta: i64, history: seq<i64>)
    requires RingState(was, w, count, history)
    ensures |was| == DELTA_HISTORY_SIZE && w < DELTA_HISTORY_SIZE
    ensures RingState(was[w := delta], (w + 1) % DELTA_HISTORY_SIZE,
                      if count < DELTA_HISTORY_SIZE then count + 1 else count, history + [delta])
  {
    Rotated(was, w, delta, history);
  }

  lemma RotationPermutes(buf: seq<i64>, w: nat)
    requires w <= |buf|
    ensures multiset(buf[w..] + buf[..w]) == multiset(buf)
  {
    var a, b := buf[..w], buf[w..];
    assert buf == a + b;
    assert multiset(a + b) == multiset(a) + multiset(b) == multiset(b + a);
  }

  lemma RingMultiset(buf: seq<i64>, w: nat, count: nat, history: seq<i64>)
    requires RingState(buf, w, count, history)
    ensures count <= |buf| && multiset(buf[..count]) == multiset(Recent(history))
  {
    if |history| >= DELTA_HISTORY_SIZE {
      RotationPermutes(buf, w);
      assert buf[..count] == buf;
    }
  }

  /** The global estimator; observations before initialisation are not recorded. */
  class Estimator {
    var ring: SkewRingBuffer?
    var skew: i64

    ghost function Seen(): seq<i64>
      reads this, ring
    {
      if ring == null then [] else ring.history
    }

    /** The stored skew is the median of the most recent deltas. */
    ghost predicate Valid()
      reads this, ring, if ring == null then {} else {ring.buf}
    {
      (ring != null ==> ring.Valid()) && skew == Median(Recent(Seen()))
    }

    constructor ()
      ensures Valid() && ring == null
    {
      ring, skew := null, 0;
    }

    /** A second initialisation has no effect. */
    method InitClockAlign()
      requires Valid()
      modifies this
      ensures Valid() && ring != null && Seen() == old(Seen()) && (old(ring) != null ==> ring == old(ring))
    {
      if ring == null { ring := new SkewRingBuffer(); }
    }

    method RecordCounterObservation(remote: u64, local: u64)
      requires Valid()
      modifies this, ring, if ring == null then {} else {ring.buf}
      ensures Valid() && ring == old(ring)
      ensures ring != null ==> Seen() == old(Seen()) + [Delta(remote, local)]
      ensures skew == Median(Recent(Seen()))
    {
      var delta := Delta(remote, local);
      if ring != null {
        ring.Push(delta);
        skew := ring.MedianNow();
      }
    }
  }
}
