/** Every step of the two-peer system is one kernel call by one peer. */
module Conformance {
  import opened Bytes
  import opened Crypto
  import opened MessageCipher
  import opened RootState
  import opened Protocol
  import Kernel

  function Actor(l: Label): Who {
    match l
    case Start(_) => Alice
    case Apply(_) => Bob
    case CommitBy(w) => w
    case RollOne(w) => w
    case Send(w, _, _, _, _) => w
    case Receive(w, _, _) => w
  }

  function CallOf(l: Label): Kernel.Call {
    match l
    case Start(coin) => Kernel.Start(coin)
    case Apply(ct) => Kernel.Apply(ct)
    case CommitBy(_) => Kernel.Committing
    case RollOne(_) => Kernel.Rolling
    case Send(_, _, _, _, _) => Kernel.Drawing
    case Receive(_, wire, h) => Kernel.Receive(wire, h)
  }

  /** Both hold Bob's key: Alice installed it, Bob generated it. */
  ghost predicate Keyed(s: Sys, w: Who, k: Keys, sha256: Hash) {
    if w == Alice then k.peerPk == s.pk && k.peerPkHash == sha256(s.pk) else k.owned == Some(s.pk)
  }

  /**
   The acting peer ends where its kernel call leaves it, the other peer is not touched, Alice's
   ciphertexts grow by what a start stored, Bob's by what an apply accepted, and the log by a message
   that carries the number drawn.
   */
  lemma StepIsCall(s: Sys, l: Label, k: Keys, sha256: Hash)
    requires Keyed(s, Actor(l), k, sha256)
    ensures var w := Actor(l);
            var (m, r) := Kernel.Do(Kernel.Node(Get(s, w), k), CallOf(l), sha256);
            var t := Step(s, l);
            && Get(t, w) == m.peer && Get(t, Other(w)) == Get(s, Other(w)) && t.pk == s.pk
            && t.cts == s.cts + (if l.Start? && r == Kernel.Code(0) then {m.keys.kemCipher.value} else {})
            && t.applied == s.applied + (if l.Apply? && r == Kernel.Code(0) then {l.ct} else {})
            && t.log == s.log + (if l.Send? then [MessageOf(s, l)] else [])
            && (l.Send? ==> r == Kernel.Number(MessageOf(s, l).header.msgSeq))
  {
    hide HearsBob;
  }
}
