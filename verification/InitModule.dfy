/** The out-of-band initialisation (`secure_core/src/init_module.rs`). */
module InitModule {
  import opened Bytes
  import opened Crypto
  import opened RootState

  /** `out` alternates alice and bob bytes, up to the shorter of the two. */
  ghost predicate IsInterleaving(out: seq<byte>, alice: seq<byte>, bob: seq<byte>) {
    var n := if |alice| <= |bob| then |alice| else |bob|;
    && |out| == 2 * n
    && forall i :: 0 <= i < n ==> out[2 * i] == alice[i] && out[2 * i + 1] == bob[i]
  }

  function Interleave(alice: seq<byte>, bob: seq<byte>): (out: seq<byte>)
    ensures IsInterleaving(out, alice, bob)
  {
    var n := if |alice| <= |bob| then |alice| else |bob|;
    seq(2 * n, k requires 0 <= k < 2 * n => if k % 2 == 0 then alice[k / 2] else bob[k / 2])
  }

  method OddEvenInterleave(alice: seq<byte>, bob: seq<byte>) returns (out: seq<byte>)
    ensures out == Interleave(alice, bob)
  {
    var len := if |alice| <= |bob| then |alice| else |bob|;
    out := [];
    for i := 0 to len
      invariant |out| == 2 * i
      invariant forall j :: 0 <= j < i ==> out[2 * j] == alice[j] && out[2 * j + 1] == bob[j]
    {
      out := out + [alice[i]] + [bob[i]];
    }
    InterleavingUnique(out, Interleave(alice, bob), alice, bob);
  }

  /** Entropies that pass the quality gate interleave to at least 128 bytes. */
  lemma InterleaveLong(alice: seq<byte>, bob: seq<byte>)
    requires !EntropyReject(alice) && !EntropyReject(bob)
    ensures |Interleave(alice, bob)| >= 128
  {
  }

  lemma InterleavingUnique(x: seq<byte>, y: seq<byte>, alice: seq<byte>, bob: seq<byte>)
    requires IsInterleaving(x, alice, bob) && IsInterleaving(y, alice, bob)
    ensures x == y
  {
    forall k | 0 <= k < |x| ensures x[k] == y[k] {
      assert k == 2 * (k / 2) || k == 2 * (k / 2) + 1;
      assert x[2 * (k / 2)] == y[2 * (k / 2)] && x[2 * (k / 2) + 1] == y[2 * (k / 2) + 1];
    }
  }

  /** What the interleaving uses of two entropies: each cut to the length of the shorter. */
  function Used(alice: seq<byte>, bob: seq<byte>): (seq<byte>, seq<byte>) {
    var n := if |alice| <= |bob| then |alice| else |bob|;
    (alice[..n], bob[..n])
  }

  /** Two interleavings are equal exactly when the parts they use are. */
  lemma InterleaveIff(a: seq<byte>, b: seq<byte>, a': seq<byte>, b': seq<byte>)
    ensures Interleave(a, b) == Interleave(a', b') <==> Used(a, b) == Used(a', b')
  {
    var (u, v) := Used(a, b);
    var (u', v') := Used(a', b');
    var x := Interleave(a, b);
    if x == Interleave(a', b') {
      forall i | 0 <= i < |u| ensures u[i] == u'[i] && v[i] == v'[i] {
        assert x[2 * i] == u[i] && x[2 * i + 1] == v[i];
        assert x[2 * i] == u'[i] && x[2 * i + 1] == v'[i];
      }
      assert u == u' && v == v';
    } else if Used(a, b) == Used(a', b') {
      forall i | 0 <= i < |u| ensures a[i] == a'[i] && b[i] == b'[i] {
        assert u[i] == u'[i] && v[i] == v'[i];
      }
      InterleavingUnique(x, Interleave(a', b'), a, b);
    }
  }

  /** Too short, all zero, or one byte repeated. */
  predicate EntropyReject(data: seq<byte>) {
    || |data| < 64
    || (forall i :: 0 <= i < |data| ==> data[i] == 0)
    || (forall i :: 0 <= i < |data| ==> data[i] == data[0])
  }

  /**
   Loads the root and resets the epoch. The pending root and the message counter of an earlier
   session stay as they were.
   */
  function Initialise(p: Peer, alice: seq<byte>, bob: seq<byte>, bobPk: seq<byte>): (Peer, u32) {
    if EntropyReject(alice) || EntropyReject(bob) then (p, 2)
    else if bobPk == [] then (p, 3)
    else (p.(curr := Init(Interleave(alice, bob)), epoch := 0), 0)
  }

  /**
   Two initialised peers share a root exactly when the entropies they fed in agree up to the length
   of the shorter of each pair; what exceeds it is dropped.
   */
  lemma SameRootIff(p: Peer, q: Peer, a: seq<byte>, b: seq<byte>, a': seq<byte>, b': seq<byte>, pk: seq<byte>, pk': seq<byte>)
    requires Initialise(p, a, b, pk).1 == 0 && Initialise(q, a', b', pk').1 == 0
    ensures Initialise(p, a, b, pk).0.curr == Initialise(q, a', b', pk').0.curr <==> Used(a, b) == Used(a', b')
    ensures |a| == |b| ==> Used(a, b) == (a, b)
  {
    InterleaveIff(a, b, a', b');
    if |a| == |b| { assert a[..|a|] == a && b[..|b|] == b; }
  }

  /**
   A successful initialisation leaves the state the protocol starts from exactly when nothing was
   pending and no sequence number had been used: it clears neither.
   */
  lemma StartStateIff(p: Peer, alice: seq<byte>, bob: seq<byte>, bobPk: seq<byte>)
    requires Initialise(p, alice, bob, bobPk).1 == 0
    ensures Initialise(p, alice, bob, bobPk).0 == Peer(Init(Interleave(alice, bob)), None, 0, 1)
            <==> p.pend == None && p.counter == 1
  {
  }
}
