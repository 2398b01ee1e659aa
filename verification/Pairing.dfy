/** What an earlier session leaves behind when two peers are initialised. */
module Pairing {
  import opened Bytes
  import opened RootState
  import opened Protocol
  import opened Convergence
  import opened InitModule

  /** Both peers run `initialise_root_state`, each on the entropies and the key it was given. */
  function Paired(s: Sys, a: seq<byte>, b: seq<byte>, a': seq<byte>, b': seq<byte>, pk: seq<byte>, pk': seq<byte>): Sys {
    s.(alice := Initialise(s.alice, a, b, pk).0, bob := Initialise(s.bob, a', b', pk').0)
  }

  /** At one epoch with nothing under way. */
  lemma SameEpochIff(s: Sys)
    requires Outstanding(s) == {} && s.alice.epoch == s.bob.epoch
    ensures Together(s) <==> s.alice.pend == s.bob.pend && (s.alice.pend.Some? || s.alice.curr == s.bob.curr)
  {
    if s.alice.pend == s.bob.pend == None && s.alice.curr == s.bob.curr {
      assert RolledFrom(s.alice, s.bob);
    }
  }

  /**
   Initialisation clears no pending root. With nothing under way, two peers that were initialised are
   together exactly when the roots they had pending are the same and, if there were none, the entropies
   agree as far as they are used.
   */
  lemma PairedTogetherIff(s: Sys, a: seq<byte>, b: seq<byte>, a': seq<byte>, b': seq<byte>, pk: seq<byte>, pk': seq<byte>)
    requires Initialise(s.alice, a, b, pk).1 == 0 && Initialise(s.bob, a', b', pk').1 == 0 && Outstanding(s) == {}
    ensures Together(Paired(s, a, b, a', b', pk, pk')) <==>
            s.alice.pend == s.bob.pend && (s.alice.pend.Some? || Used(a, b) == Used(a', b'))
  {
    hide Together, Interleave, EntropyReject, Used;
    var t := Paired(s, a, b, a', b', pk, pk');
    assert Outstanding(t) == {};
    InterleaveIff(a, b, a', b');
    SameEpochIff(t);
  }
}
